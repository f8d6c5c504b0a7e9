/** When the relative-value backtest trades, on which sides, and at what price. */
module SpreadSignals {
  import opened Numbers
  import opened RelativeValue

  /** The spread is far enough from its mean to be worth entering. */
  predicate FarEnough(cfg: Config, bar: Bar) {
    bar.zscore.Some? && (bar.zscore.value >= cfg.entryZscore || bar.zscore.value <= -cfg.entryZscore)
  }

  /** The spread is back near its mean. */
  predicate Reverted(cfg: Config, bar: Bar) {
    bar.zscore.Some? && -cfg.exitZscore <= bar.zscore.value <= cfg.exitZscore
  }

  /** A position after a bar was entered on a far enough spread, cheap spreads long and dear ones short. It was
      entered at this very bar, or the spread has not reverted here and the holding limit is not reached. */
  ghost predicate PositionIsJustified(cfg: Config, bars: seq<Bar>, p: Position, now: nat) {
    && p.entry <= now < |bars| && FarEnough(cfg, bars[p.entry])
    && (p.isLong <==> bars[p.entry].zscore.value <= -cfg.entryZscore)
    && (p.entry == now || (!Reverted(cfg, bars[now]) && (cfg.maxHolding == 0 || now - p.entry < cfg.maxHolding)))
  }

  /** Without a position after a bar, the bar offered no entry the cash allows. */
  ghost predicate NothingToEnter(cfg: Config, bars: seq<Bar>, cash: real, now: nat)
    requires now < |bars|
  {
    !FarEnough(cfg, bars[now]) || cash < cfg.primaryNotional + cfg.hedgeNotional
  }

  lemma BarIsJustified(cfg: Config, bars: seq<Bar>, s: State, i: nat)
    requires PositiveBars(bars) && i < |bars| && (s.position.Some? ==> s.position.value.entry < i)
    requires s.position.Some? ==> i > 0 && PositionIsJustified(cfg, bars, s.position.value, i - 1)
    ensures var next := StepBar(cfg, bars, s, i);
            if next.position.Some? then PositionIsJustified(cfg, bars, next.position.value, i) else NothingToEnter(cfg, bars, next.cash, i)
  {
  }

  /** At every bar of every run the position held, or the absence of one, is what the signals ask for. */
  lemma {:induction false} PositionFollowsSignals(cfg: Config, bars: seq<Bar>, n: nat)
    requires PositiveBars(bars) && 0 < n <= |bars|
    ensures var s := RunTo(cfg, bars, n);
            if s.position.Some? then PositionIsJustified(cfg, bars, s.position.value, n - 1) else NothingToEnter(cfg, bars, s.cash, n - 1)
  {
    if n > 1 {
      PositionFollowsSignals(cfg, bars, n - 1);
    }
    BarIsJustified(cfg, bars, RunTo(cfg, bars, n - 1), n - 1);
  }

  /** A position ends, or gives way to another, only where the spread has reverted or the holding limit is
      reached. */
  lemma ExitIsJustified(cfg: Config, bars: seq<Bar>, s: State, i: nat)
    requires PositiveBars(bars) && i < |bars| && s.position.Some? && s.position.value.entry < i
    ensures StepBar(cfg, bars, s, i).position != s.position <==> Reverted(cfg, bars[i]) || (cfg.maxHolding > 0 && i - s.position.value.entry >= cfg.maxHolding)
  {
  }

  // ---- the ledger's legs ----

  /** The two legs of one entry or exit: opposite sides of primary and hedge at one bar, each at a price no
      better than the bar's, paying its fee and slippage on its notional. */
  ghost predicate FairPair(cfg: Config, bars: seq<Bar>, a: Trade, b: Trade) {
    && a.step == b.step < |bars| && a.leg == Primary && b.leg == Hedge && a.side != b.side
    && FairLeg(cfg, a, bars[a.step].primary, cfg.primaryNotional) && FairLeg(cfg, b, bars[b.step].hedge, cfg.hedgeNotional)
  }

  ghost predicate FairLeg(cfg: Config, t: Trade, price: real, notional: real) {
    && t.notional == notional
    && (t.side == Buy ==> t.price == price + Product(price, Abs(cfg.slippageBps) / 10000.0))
    && (t.side == Sell ==> t.price == price - Product(price, Abs(cfg.slippageBps) / 10000.0))
    && t.fee == Product(notional, cfg.feeBps) / 10000.0 && t.slippage == Product(notional, Abs(cfg.slippageBps) / 10000.0)
  }

  lemma LegIsFair(cfg: Config, step: nat, leg: Leg, side: Side, price: real, notional: real)
    ensures FairLeg(cfg, LegTrade(cfg, step, leg, side, price, notional), price, notional)
  {
    var slip := Abs(cfg.slippageBps) / 10000.0;
    MulAdds(price, 1.0, slip);
    MulAdds(price, 1.0, -slip);
  }

  lemma PairIsFair(cfg: Config, bars: seq<Bar>, step: nat, side: Side)
    requires step < |bars|
    ensures var legs := PairOfTrades(cfg, step, bars[step], side);
            FairPair(cfg, bars, legs[0], legs[1])
  {
    LegIsFair(cfg, step, Primary, side, bars[step].primary, cfg.primaryNotional);
    LegIsFair(cfg, step, Hedge, Flip(side), bars[step].hedge, cfg.hedgeNotional);
  }

  ghost predicate FairPairs(cfg: Config, bars: seq<Bar>, trades: seq<Trade>) {
    |trades| % 2 == 0 && forall k :: 0 <= k < |trades| - 1 && k % 2 == 0 ==> FairPair(cfg, bars, trades[k], trades[k + 1])
  }

  /** Each round is closed later, by the opposite of the pair that opened it. */
  ghost predicate RoundsReverse(trades: seq<Trade>) {
    forall k :: 0 <= k < |trades| - 3 && k % 4 == 0 ==> trades[k + 2].side != trades[k].side && trades[k].step < trades[k + 2].step
  }

  /** The last pair of the ledger opened the position held. */
  ghost predicate OpenedByLastPair(s: State) {
    && (|s.trades| % 4 == 2 <==> s.position.Some?)
    && (s.position.Some? ==> |s.trades| >= 2 && s.trades[|s.trades| - 2].step == s.position.value.entry
                             && (s.trades[|s.trades| - 2].side == Buy <==> s.position.value.isLong))
  }

  ghost predicate FairLedger(cfg: Config, bars: seq<Bar>, s: State) {
    FairPairs(cfg, bars, s.trades) && RoundsReverse(s.trades) && OpenedByLastPair(s)
  }

  lemma AddFairPair(cfg: Config, bars: seq<Bar>, trades: seq<Trade>, a: Trade, b: Trade)
    requires FairPairs(cfg, bars, trades) && FairPair(cfg, bars, a, b)
    ensures FairPairs(cfg, bars, trades + [a, b])
  {
    var next := trades + [a, b];
    forall k | 0 <= k < |next| - 1 && k % 2 == 0
      ensures FairPair(cfg, bars, next[k], next[k + 1])
    {
      if k < |trades| {
        assert k + 1 < |trades|;
      }
    }
  }

  lemma AddOpening(trades: seq<Trade>, a: Trade, b: Trade)
    requires RoundsReverse(trades) && |trades| % 4 == 0
    ensures RoundsReverse(trades + [a, b])
  {
    var next := trades + [a, b];
    forall k | 0 <= k < |next| - 3 && k % 4 == 0
      ensures next[k + 2].side != next[k].side && next[k].step < next[k + 2].step
    {
      assert k < |trades| - 3;
    }
  }

  lemma AddClosing(trades: seq<Trade>, a: Trade, b: Trade)
    requires RoundsReverse(trades) && |trades| % 4 == 2 && a.side != trades[|trades| - 2].side && trades[|trades| - 2].step < a.step
    ensures RoundsReverse(trades + [a, b])
  {
    var next := trades + [a, b];
    forall k | 0 <= k < |next| - 3 && k % 4 == 0
      ensures next[k + 2].side != next[k].side && next[k].step < next[k + 2].step
    {
      assert k < |trades| - 3 || k == |trades| - 2;
    }
  }

  lemma ExitIsFair(cfg: Config, bars: seq<Bar>, s: State, i: nat)
    requires PositiveBars(bars) && i < |bars| && FairLedger(cfg, bars, s) && (s.position.Some? ==> s.position.value.entry < i)
    ensures FairLedger(cfg, bars, Exit(cfg, bars, s, i))
  {
    var next := Exit(cfg, bars, s, i);
    if next != s {
      var side := if s.position.value.isLong then Sell else Buy;
      var legs := PairOfTrades(cfg, i, bars[i], side);
      PairIsFair(cfg, bars, i, side);
      AddFairPair(cfg, bars, s.trades, legs[0], legs[1]);
      AddClosing(s.trades, legs[0], legs[1]);
      assert next.trades == s.trades + [legs[0], legs[1]];
    }
  }

  lemma EnterIsFair(cfg: Config, bars: seq<Bar>, s: State, i: nat)
    requires i < |bars| && FairLedger(cfg, bars, s)
    ensures FairLedger(cfg, bars, Enter(cfg, bars, s, i))
  {
    var next := Enter(cfg, bars, s, i);
    if next != s {
      var side := if next.position.value.isLong then Buy else Sell;
      var legs := PairOfTrades(cfg, i, bars[i], side);
      PairIsFair(cfg, bars, i, side);
      AddFairPair(cfg, bars, s.trades, legs[0], legs[1]);
      AddOpening(s.trades, legs[0], legs[1]);
      assert next.trades == s.trades + [legs[0], legs[1]];
    }
  }

  /** In every run each pair of the ledger trades the two legs in opposite directions at fair prices, each
      round is closed later and in reverse, and the last pair is the position held. */
  lemma {:induction false} LedgerIsFair(cfg: Config, bars: seq<Bar>, n: nat)
    requires PositiveBars(bars) && n <= |bars|
    ensures FairLedger(cfg, bars, RunTo(cfg, bars, n))
  {
    if n > 0 {
      LedgerIsFair(cfg, bars, n - 1);
      ExitIsFair(cfg, bars, RunTo(cfg, bars, n - 1), n - 1);
      EnterIsFair(cfg, bars, Exit(cfg, bars, RunTo(cfg, bars, n - 1), n - 1), n - 1);
    }
  }
}
