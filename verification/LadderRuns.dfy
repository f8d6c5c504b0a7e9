/** The builder and the loop together: runs over built ladders, rounded to ticks, never drift. */
module LadderRuns {
  import opened Numbers
  import opened LadderMatching
  import opened MarketMaker
  import opened MarketMakerRun
  import opened MarketMakerSafety
  import opened MarketMaking

  /** The cycle's plan is the ladder the builder returns for some inventory. */
  ghost predicate UsesBuiltLadder(e: CycleEnv, cfg: LadderConfig, inventory: Option<real>)
    requires cfg.levels > 0 && cfg.depthShape != OtherShape
  {
    var levels := ActiveLevels(cfg.levels, StepPct(cfg), cfg.minDistanceBps);
    SizingConservesBudget(|levels|, cfg);
    e.plan.orders == Ladder(levels, QuoteByLevel(|levels|, cfg), e.plan.mid, StepPct(cfg), InventoryMultipliers(cfg, inventory), cfg.minOrderQuote)
  }

  /** Validation moved no price by more than a tick, and two bands and two ticks fit between levels. */
  ghost predicate RoundedWithinSpacing(e: CycleEnv, cfg: LadderConfig, tick: real)
    requires cfg.levels > 0
  {
    && e.plan.mid > 0.0 && |e.prepared| == |e.plan.orders|
    && (forall n :: 0 <= n < |e.prepared| ==> Abs(e.prepared[n].price - e.plan.orders[n].price) <= tick)
    && HasRoom(e.plan.mid, EffectiveThresholdBps(e.cfg, e.plan), tick, Product(e.plan.mid, StepPct(cfg)))
  }

  /** Two bands and two ticks fit into a gap. */
  ghost predicate HasRoom(mid: real, threshold: real, tick: real, gap: real) {
    2.0 * threshold * mid / BPS + 2.0 * tick <= gap && 2.0 * tick < gap
  }

  ghost predicate BuiltEvent(ev: Event, cfg: LadderConfig)
    requires cfg.levels > 0 && cfg.depthShape != OtherShape
  {
    ev.PlacedCycle? ==> (exists tick :: RoundedWithinSpacing(ev.env, cfg, tick)) && exists inventory :: UsesBuiltLadder(ev.env, cfg, inventory)
  }

  lemma RoundedPricesAreSpaced(orders: seq<Row>, rows: seq<Row>, mid: real, threshold: real, tick: real, gap: real)
    requires Apart(orders, gap) && |rows| == |orders|
    requires forall n :: 0 <= n < |rows| ==> RoundedRow(rows[n], orders[n], tick)
    requires HasRoom(mid, threshold, tick, gap)
    ensures Spaced(rows, mid, threshold)
  {
    RoundedPricesAreApart(orders, rows, tick, gap);
    ApartIsSpaced(rows, mid, threshold, gap - 2.0 * tick);
  }

  lemma ApartIsSpaced(rows: seq<Row>, mid: real, threshold: real, gap: real)
    requires Apart(rows, gap) && 2.0 * threshold * mid / BPS <= gap && gap > 0.0
    ensures Spaced(rows, mid, threshold)
  {
  }

  lemma RankMovesByTick(side: Side, price: real, planned: real, tick: real)
    requires Abs(price - planned) <= tick
    ensures PriceRank(side, planned) - tick <= PriceRank(side, price) <= PriceRank(side, planned) + tick
  {
  }

  ghost predicate RoundedRow(row: Row, order: Row, tick: real) {
    row.PlanKey() == order.PlanKey() && Abs(row.price - order.price) <= tick
  }

  lemma RoundedPairIsApart(orders: seq<Row>, x: Row, y: Row, a: Row, b: Row, tick: real, gap: real)
    requires Apart(orders, gap) && x in orders && y in orders && RoundedRow(a, x, tick) && RoundedRow(b, y, tick)
    requires a.side == b.side && a.level < b.level
    ensures PriceRank(b.side, b.price) - PriceRank(a.side, a.price) >= gap - 2.0 * tick
  {
    RankMovesByTick(a.side, a.price, x.price, tick);
    RankMovesByTick(b.side, b.price, y.price, tick);
  }

  lemma RoundedPricesAreApart(orders: seq<Row>, rows: seq<Row>, tick: real, gap: real)
    requires Apart(orders, gap) && |rows| == |orders| && forall n :: 0 <= n < |rows| ==> RoundedRow(rows[n], orders[n], tick)
    ensures Apart(rows, gap - 2.0 * tick)
  {
    forall a, b | a in rows && b in rows && a.side == b.side && a.level < b.level
      ensures PriceRank(b.side, b.price) - PriceRank(a.side, a.price) >= gap - 2.0 * tick
    {
      var i :| 0 <= i < |rows| && rows[i] == a;
      var j :| 0 <= j < |rows| && rows[j] == b;
      RoundedPairIsApart(orders, orders[i], orders[j], a, b, tick, gap);
    }
  }

  lemma ComparedPricesAreRounded(orders: seq<Row>, prepared: seq<Prepared>, tick: real)
    requires |prepared| == |orders| && forall n :: 0 <= n < |prepared| ==> Abs(prepared[n].price - orders[n].price) <= tick
    ensures var rows := ComparisonOrders(orders, prepared);
            && |rows| == |orders|
            && forall n :: 0 <= n < |rows| ==> RoundedRow(rows[n], orders[n], tick)
  {
  }

  lemma RoundedLadderIsSpaced(orders: seq<Row>, prepared: seq<Prepared>, mid: real, threshold: real, tick: real, gap: real)
    requires Apart(orders, gap) && |prepared| == |orders| && HasRoom(mid, threshold, tick, gap)
    requires forall n :: 0 <= n < |prepared| ==> Abs(prepared[n].price - orders[n].price) <= tick
    ensures Spaced(ComparisonOrders(orders, prepared), mid, threshold)
  {
    ComparedPricesAreRounded(orders, prepared, tick);
    RoundedPricesAreSpaced(orders, ComparisonOrders(orders, prepared), mid, threshold, tick, gap);
  }

  lemma BuiltOrdersAreApart(e: CycleEnv, cfg: LadderConfig, inventory: Option<real>)
    requires cfg.levels > 0 && cfg.priceBandPct > 0.0 && cfg.depthShape != OtherShape && e.plan.mid > 0.0
    requires UsesBuiltLadder(e, cfg, inventory)
    ensures Apart(e.plan.orders, Product(e.plan.mid, StepPct(cfg)))
  {
    BuiltLadderIsSpaced(cfg, e.plan.mid, InventoryMultipliers(cfg, inventory), 0.0);
  }

  lemma BuiltCycleIsSpaced(e: CycleEnv, cfg: LadderConfig, tick: real, inventory: Option<real>, threshold: real)
    requires cfg.levels > 0 && cfg.priceBandPct > 0.0 && cfg.depthShape != OtherShape && threshold == EffectiveThresholdBps(e.cfg, e.plan)
    requires RoundedWithinSpacing(e, cfg, tick) && UsesBuiltLadder(e, cfg, inventory)
    ensures Spaced(ComparisonOrders(e.plan.orders, e.prepared), e.plan.mid, threshold)
  {
    BuiltOrdersAreApart(e, cfg, inventory);
    RoundedLadderIsSpaced(e.plan.orders, e.prepared, e.plan.mid, threshold, tick, Product(e.plan.mid, StepPct(cfg)));
  }

  lemma BuiltEventIsSpaced(ev: Event, cfg: LadderConfig)
    requires cfg.levels > 0 && cfg.priceBandPct > 0.0 && cfg.depthShape != OtherShape && BuiltEvent(ev, cfg)
    ensures SpacedEvent(ev)
  {
    if ev.PlacedCycle? {
      var e := ev.env;
      var tick :| RoundedWithinSpacing(e, cfg, tick);
      var inventory :| UsesBuiltLadder(e, cfg, inventory);
      BuiltCycleIsSpaced(e, cfg, tick, inventory, EffectiveThresholdBps(e.cfg, e.plan));
    }
  }

  /** A run whose placed cycles use built ladders, with prices rounded by at most a tick and room for two
      bands and two ticks between levels, is spaced; so every unchanged or placed cycle leaves one order
      per level inside its band. */
  lemma BuiltLaddersNeverDrift(states: seq<MakerState>, events: seq<Event>, cfg: LadderConfig, n: nat)
    requires cfg.levels > 0 && cfg.priceBandPct > 0.0 && cfg.depthShape != OtherShape
    requires IsRun(states, events) && Invariant(states[0]) && forall k :: 0 <= k < |events| ==> BuiltEvent(events[k], cfg)
    ensures IsSpacedRun(states, events)
    ensures n < |events| ==> Invariant(states[n]) && LeavesLadder(states[n], events[n], states[n + 1])
  {
    forall k | 0 <= k < |events|
      ensures SpacedEvent(events[k])
    {
      BuiltEventIsSpaced(events[k], cfg);
    }
    if n < |events| {
      NoDrift(states, events, n);
    }
  }

  lemma FreshLoopSatisfiesInvariant(s: MakerState)
    requires Healthy(s.open) && s.plan.None?
    ensures Invariant(s)
  {
  }

  /** So a loop that starts without a remembered plan, on any book of priced orders, never drifts. */
  lemma FreshLoopNeverDrifts(states: seq<MakerState>, events: seq<Event>, cfg: LadderConfig, n: nat)
    requires cfg.levels > 0 && cfg.priceBandPct > 0.0 && cfg.depthShape != OtherShape
    requires IsRun(states, events) && Healthy(states[0].open) && states[0].plan.None?
    requires n < |events| && forall k :: 0 <= k < |events| ==> BuiltEvent(events[k], cfg)
    ensures LeavesLadder(states[n], events[n], states[n + 1])
  {
    FreshLoopSatisfiesInvariant(states[0]);
    BuiltLaddersNeverDrift(states, events, cfg, n);
  }
}
