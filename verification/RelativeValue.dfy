/** The relative-value backtest: its equity curve against an account rebuilt from the trade ledger. */
module RelativeValue {
  import opened Numbers

  /** One bar of validated prices and the z-score of its spread, if enough history allows one. */
  datatype Bar = Bar(primary: real, hedge: real, zscore: Option<real>)

  datatype Config = Config(
    initialCash: real, feeBps: real, slippageBps: real, primaryNotional: real, hedgeNotional: real,
    entryZscore: real, exitZscore: real, maxHolding: nat)

  datatype Side = Buy | Sell

  datatype Leg = Primary | Hedge

  datatype Trade = Trade(step: nat, leg: Leg, side: Side, price: real, notional: real, fee: real, slippage: real)

  /** An open position: long or short the spread, entered at a bar. */
  datatype Position = Position(isLong: bool, entry: nat)

  datatype State = State(cash: real, position: Option<Position>, trades: seq<Trade>, equities: seq<real>)

  function LegTrade(cfg: Config, step: nat, leg: Leg, side: Side, price: real, notional: real): Trade {
    var slip := Abs(cfg.slippageBps) / 10000.0;
    Trade(step, leg, side, Product(price, if side == Buy then 1.0 + slip else 1.0 - slip), notional,
          Product(notional, cfg.feeBps) / 10000.0, Product(notional, slip))
  }

  function Flip(side: Side): Side {
    if side == Buy then Sell else Buy
  }

  function PairOfTrades(cfg: Config, step: nat, bar: Bar, primarySide: Side): seq<Trade> {
    [LegTrade(cfg, step, Primary, primarySide, bar.primary, cfg.primaryNotional),
     LegTrade(cfg, step, Hedge, Flip(primarySide), bar.hedge, cfg.hedgeNotional)]
  }

  function CostOf(t: Trade): real {
    t.fee + t.slippage
  }

  /** The profit of holding both legs between two bars, per direction. */
  function Pnl(isLong: bool, primaryNotional: real, hedgeNotional: real, entry: Bar, now: Bar): real
    requires entry.primary > 0.0 && entry.hedge > 0.0
  {
    var spread := Product(primaryNotional, now.primary / entry.primary - 1.0) - Product(hedgeNotional, now.hedge / entry.hedge - 1.0);
    if isLong then spread else -spread
  }

  ghost predicate PositiveBars(bars: seq<Bar>) {
    forall i :: 0 <= i < |bars| ==> bars[i].primary > 0.0 && bars[i].hedge > 0.0
  }

  function Unrealized(cfg: Config, bars: seq<Bar>, p: Option<Position>, now: nat): real
    requires PositiveBars(bars) && now < |bars| && (p.Some? ==> p.value.entry < |bars|)
  {
    if p.None? then 0.0 else Pnl(p.value.isLong, cfg.primaryNotional, cfg.hedgeNotional, bars[p.value.entry], bars[now])
  }

  predicate ShouldExit(cfg: Config, bar: Bar, held: int) {
    (bar.zscore.Some? && Abs(bar.zscore.value) <= cfg.exitZscore) || (cfg.maxHolding > 0 && held >= cfg.maxHolding)
  }

  predicate ShouldEnter(cfg: Config, bar: Bar, cash: real) {
    bar.zscore.Some? && Abs(bar.zscore.value) >= cfg.entryZscore && cash >= cfg.primaryNotional + cfg.hedgeNotional
  }

  /** Close the position at this bar when the exit signal or the holding limit says so. */
  function Exit(cfg: Config, bars: seq<Bar>, s: State, i: nat): State
    requires PositiveBars(bars) && i < |bars| && (s.position.Some? ==> s.position.value.entry < |bars|)
  {
    if s.position.None? || !ShouldExit(cfg, bars[i], i - s.position.value.entry) then s
    else
      var legs := PairOfTrades(cfg, i, bars[i], if s.position.value.isLong then Sell else Buy);
      s.(cash := s.cash + (Unrealized(cfg, bars, s.position, i) - (CostOf(legs[0]) + CostOf(legs[1]))), position := None, trades := s.trades + legs)
  }

  /** Open a position at this bar when the entry signal and the cash allow it. */
  function Enter(cfg: Config, bars: seq<Bar>, s: State, i: nat): State
    requires i < |bars|
  {
    if s.position.Some? || !ShouldEnter(cfg, bars[i], s.cash) then s
    else
      var isLong := bars[i].zscore.value <= -cfg.entryZscore;
      var legs := PairOfTrades(cfg, i, bars[i], if isLong then Buy else Sell);
      s.(cash := s.cash - (CostOf(legs[0]) + CostOf(legs[1])), position := Some(Position(isLong, i)), trades := s.trades + legs)
  }

  function AddPoint(cfg: Config, bars: seq<Bar>, s: State, i: nat): State
    requires PositiveBars(bars) && i < |bars| && (s.position.Some? ==> s.position.value.entry < |bars|)
  {
    s.(equities := s.equities + [s.cash + Unrealized(cfg, bars, s.position, i)])
  }

  function StepBar(cfg: Config, bars: seq<Bar>, s: State, i: nat): (next: State)
    requires PositiveBars(bars) && i < |bars| && (s.position.Some? ==> s.position.value.entry < i)
    ensures next.position.Some? ==> next.position.value.entry <= i
  {
    AddPoint(cfg, bars, Enter(cfg, bars, Exit(cfg, bars, s, i), i), i)
  }

  function Start(cfg: Config): State {
    State(cfg.initialCash, None, [], [])
  }

  /** The state after the first `n` bars. */
  function RunTo(cfg: Config, bars: seq<Bar>, n: nat): (s: State)
    requires PositiveBars(bars) && n <= |bars|
    ensures s.position.Some? ==> s.position.value.entry < n
  {
    if n == 0 then Start(cfg)
    else StepBar(cfg, bars, RunTo(cfg, bars, n - 1), n - 1)
  }

  lemma NoGainAtEntry(isLong: bool, primaryNotional: real, hedgeNotional: real, bar: Bar)
    requires bar.primary > 0.0 && bar.hedge > 0.0
    ensures Pnl(isLong, primaryNotional, hedgeNotional, bar, bar) == 0.0
  {
    MulDivCancels(1.0, bar.primary);
    MulDivCancels(1.0, bar.hedge);
  }

  /** One bar of the loop: exit, then enter, then the equity point. */
  method RunBar(cfg: Config, bars: seq<Bar>, before: State, i: nat) returns (s: State)
    requires PositiveBars(bars) && i < |bars| && (before.position.Some? ==> before.position.value.entry < i)
    ensures s == StepBar(cfg, bars, before, i)
  {
    s := before;
    var unrealized := 0.0;
    if s.position.Some? {
      unrealized := Unrealized(cfg, bars, s.position, i);
      if ShouldExit(cfg, bars[i], i - s.position.value.entry) {
        var legs := PairOfTrades(cfg, i, bars[i], if s.position.value.isLong then Sell else Buy);
        s := s.(trades := s.trades + legs, cash := s.cash + (unrealized - (CostOf(legs[0]) + CostOf(legs[1]))), position := None);
        unrealized := 0.0;
      }
    }
    assert s == Exit(cfg, bars, before, i) && unrealized == Unrealized(cfg, bars, s.position, i);
    if s.position.None? && ShouldEnter(cfg, bars[i], s.cash) {
      var isLong := bars[i].zscore.value <= -cfg.entryZscore;
      var legs := PairOfTrades(cfg, i, bars[i], if isLong then Buy else Sell);
      s := s.(trades := s.trades + legs, cash := s.cash - (CostOf(legs[0]) + CostOf(legs[1])), position := Some(Position(isLong, i)));
      NoGainAtEntry(isLong, cfg.primaryNotional, cfg.hedgeNotional, bars[i]);
    }
    s := s.(equities := s.equities + [s.cash + unrealized]);
  }

  /** The backtest loop and its settlement of a position still open at the end, which changes nothing:
      the last point of the curve already is the final equity. */
  method RunRelativeValueBacktest(cfg: Config, bars: seq<Bar>) returns (s: State, finalEquity: real)
    requires PositiveBars(bars) && |bars| >= 2
    ensures s == RunTo(cfg, bars, |bars|)
    ensures |s.equities| == |bars| && s.equities[|bars| - 1] == finalEquity
  {
    s := Start(cfg);
    for i := 0 to |bars|
      invariant s == RunTo(cfg, bars, i)
      invariant |s.equities| == i
      invariant i > 0 ==> s.equities[i - 1] == s.cash + Unrealized(cfg, bars, s.position, i - 1)
    {
      s := RunBar(cfg, bars, s, i);
    }
    finalEquity := s.cash;
    if s.position.Some? {
      finalEquity := s.cash + Unrealized(cfg, bars, s.position, |bars| - 1);
      s := s.(equities := s.equities[|s.equities| - 1 := finalEquity]);
    }
  }

  // ---- the account rebuilt from the trade ledger ----

  /** What holding one leg gains between two prices: its units times the price change, against it if sold. */
  function LegGain(side: Side, notional: real, entry: real, now: real): real
    requires entry > 0.0
  {
    var gain := Product(notional / entry, now - entry);
    if side == Buy then gain else -gain
  }

  /** What two entry legs of the ledger gain until a bar. */
  function LegsGain(bars: seq<Bar>, first: Trade, second: Trade, now: nat): real
    requires PositiveBars(bars) && first.step < |bars| && second.step < |bars| && now < |bars|
  {
    LegGain(first.side, first.notional, bars[first.step].primary, bars[now].primary)
    + LegGain(second.side, second.notional, bars[second.step].hedge, bars[now].hedge)
  }

  lemma LegReturn(notional: real, entry: real, now: real)
    requires entry > 0.0
    ensures Product(notional, now / entry - 1.0) == Product(notional / entry, now - entry)
  {
    DivAdds(now, -entry, entry);
    MulDivCancels(-1.0, entry);
    DivCancels(notional, entry);
    DivCancels(now - entry, entry);
    MulReorders(notional / entry, entry, (now - entry) / entry);
  }

  /** The profit the loop books is what an opposite pair of legs gains. */
  lemma PnlIsLegsGain(isLong: bool, primaryNotional: real, hedgeNotional: real, entry: Bar, now: Bar)
    requires entry.primary > 0.0 && entry.hedge > 0.0
    ensures Pnl(isLong, primaryNotional, hedgeNotional, entry, now)
         == LegGain(if isLong then Buy else Sell, primaryNotional, entry.primary, now.primary)
            + LegGain(if isLong then Sell else Buy, hedgeNotional, entry.hedge, now.hedge)
  {
    LegReturn(primaryNotional, entry.primary, now.primary);
    LegReturn(hedgeNotional, entry.hedge, now.hedge);
  }

  /** The trades of the ledger in groups of four: both entry legs, then both exit legs. */
  function RoundPnl(bars: seq<Bar>, trades: seq<Trade>, k: nat): real
    requires PositiveBars(bars) && 4 * k + 4 <= |trades| && StepsWithin(trades, |bars|)
  {
    LegsGain(bars, trades[4 * k], trades[4 * k + 1], trades[4 * k + 2].step)
  }

  ghost predicate StepsWithin(trades: seq<Trade>, n: nat) {
    forall i :: 0 <= i < |trades| ==> trades[i].step < n
  }

  function ClosedPnl(bars: seq<Bar>, trades: seq<Trade>, rounds: nat): real
    requires PositiveBars(bars) && 4 * rounds <= |trades| && StepsWithin(trades, |bars|)
  {
    if rounds == 0 then 0.0 else ClosedPnl(bars, trades, rounds - 1) + RoundPnl(bars, trades, rounds - 1)
  }

  function Costs(trades: seq<Trade>): real {
    if trades == [] then 0.0 else Costs(trades[..|trades| - 1]) + trades[|trades| - 1].fee + trades[|trades| - 1].slippage
  }

  /** What two entry legs without exit legs are worth at the last bar. */
  function OpenPnl(bars: seq<Bar>, trades: seq<Trade>, now: nat): real
    requires PositiveBars(bars) && StepsWithin(trades, |bars|) && now < |bars|
  {
    if |trades| % 4 != 2 then 0.0
    else LegsGain(bars, trades[|trades| - 2], trades[|trades| - 1], now)
  }

  lemma CostsOfTwoMore(trades: seq<Trade>, a: Trade, b: Trade)
    ensures Costs(trades + [a, b]) == Costs(trades) + CostOf(a) + CostOf(b)
  {
    assert (trades + [a, b])[..|trades| + 1] == trades + [a];
    assert (trades + [a])[..|trades|] == trades;
  }

  lemma {:induction false} ClosedPnlOfPrefix(bars: seq<Bar>, trades: seq<Trade>, more: seq<Trade>, rounds: nat)
    requires PositiveBars(bars) && 4 * rounds <= |trades| && StepsWithin(trades, |bars|) && StepsWithin(trades + more, |bars|)
    ensures ClosedPnl(bars, trades + more, rounds) == ClosedPnl(bars, trades, rounds)
  {
    if rounds > 0 {
      ClosedPnlOfPrefix(bars, trades, more, rounds - 1);
    }
  }

  /** The last two trades entered the open position. */
  ghost predicate EntryLegs(cfg: Config, bars: seq<Bar>, trades: seq<Trade>, p: Position) {
    var n := |trades|;
    n >= 2 && p.entry < |bars| && IsEntry(cfg, bars[p.entry], trades[n - 2], trades[n - 1], p)
  }

  predicate IsEntry(cfg: Config, bar: Bar, first: Trade, second: Trade, p: Position) {
    && first.step == second.step == p.entry && first.side == (if p.isLong then Buy else Sell) && second.side == (if p.isLong then Sell else Buy)
    && first.notional == cfg.primaryNotional && second.notional == cfg.hedgeNotional
  }

  /** Four trades to each closed round, and the two entry legs while a position is open. */
  ghost predicate LedgerShape(cfg: Config, bars: seq<Bar>, s: State, rounds: nat) {
    && StepsWithin(s.trades, |bars|)
    && |s.trades| == 4 * rounds + (if s.position.Some? then 2 else 0)
    && (s.position.Some? ==> EntryLegs(cfg, bars, s.trades, s.position.value))
  }

  ghost predicate LedgerOk(cfg: Config, bars: seq<Bar>, s: State, rounds: nat)
    requires PositiveBars(bars)
  {
    LedgerShape(cfg, bars, s, rounds) && s.cash == cfg.initialCash + ClosedPnl(bars, s.trades, rounds) - Costs(s.trades)
  }

  lemma PairIsTwo(cfg: Config, step: nat, bar: Bar, side: Side)
    ensures var legs := PairOfTrades(cfg, step, bar, side);
            && legs == [legs[0], legs[1]] && legs[0].step == legs[1].step == step && legs[0].side == side
            && legs[1].side == (if side == Buy then Sell else Buy) && legs[0].notional == cfg.primaryNotional && legs[1].notional == cfg.hedgeNotional
  {
  }

  lemma OpenLegsGain(cfg: Config, bars: seq<Bar>, trades: seq<Trade>, p: Position, now: nat)
    requires PositiveBars(bars) && now < |bars| && EntryLegs(cfg, bars, trades, p)
    ensures LegsGain(bars, trades[|trades| - 2], trades[|trades| - 1], now)
         == Pnl(p.isLong, cfg.primaryNotional, cfg.hedgeNotional, bars[p.entry], bars[now])
  {
    PnlIsLegsGain(p.isLong, cfg.primaryNotional, cfg.hedgeNotional, bars[p.entry], bars[now]);
  }

  lemma ClosingAddsRound(cfg: Config, bars: seq<Bar>, s: State, rounds: nat, i: nat, a: Trade, b: Trade)
    requires PositiveBars(bars) && i < |bars| && s.position.Some? && LedgerShape(cfg, bars, s, rounds)
    requires a.step == b.step == i
    ensures StepsWithin(s.trades + [a, b], |bars|)
    ensures ClosedPnl(bars, s.trades + [a, b], rounds + 1) == ClosedPnl(bars, s.trades, rounds) + Unrealized(cfg, bars, s.position, i)
  {
    var next := s.trades + [a, b];
    assert StepsWithin(next, |bars|);
    ClosedPnlOfPrefix(bars, s.trades, [a, b], rounds);
    OpenLegsGain(cfg, bars, s.trades, s.position.value, i);
    assert next[4 * rounds] == s.trades[|s.trades| - 2] && next[4 * rounds + 1] == s.trades[|s.trades| - 1] && next[4 * rounds + 2] == a;
  }

  lemma ExitKeepsLedger(cfg: Config, bars: seq<Bar>, s: State, i: nat, rounds: nat)
    requires PositiveBars(bars) && i < |bars| && LedgerOk(cfg, bars, s, rounds)
    ensures LedgerOk(cfg, bars, Exit(cfg, bars, s, i), if Exit(cfg, bars, s, i) == s then rounds else rounds + 1)
  {
    if s.position.Some? && ShouldExit(cfg, bars[i], i - s.position.value.entry) {
      var side := if s.position.value.isLong then Sell else Buy;
      var legs := PairOfTrades(cfg, i, bars[i], side);
      PairIsTwo(cfg, i, bars[i], side);
      CostsOfTwoMore(s.trades, legs[0], legs[1]);
      ClosingAddsRound(cfg, bars, s, rounds, i, legs[0], legs[1]);
    }
  }

  lemma EnterKeepsLedger(cfg: Config, bars: seq<Bar>, s: State, i: nat, rounds: nat)
    requires PositiveBars(bars) && i < |bars| && LedgerOk(cfg, bars, s, rounds)
    ensures LedgerOk(cfg, bars, Enter(cfg, bars, s, i), rounds)
  {
    if s.position.None? && ShouldEnter(cfg, bars[i], s.cash) {
      var side := if bars[i].zscore.value <= -cfg.entryZscore then Buy else Sell;
      var legs := PairOfTrades(cfg, i, bars[i], side);
      PairIsTwo(cfg, i, bars[i], side);
      CostsOfTwoMore(s.trades, legs[0], legs[1]);
      assert StepsWithin(s.trades + legs, |bars|);
      ClosedPnlOfPrefix(bars, s.trades, legs, rounds);
    }
  }

  lemma BarKeepsLedger(cfg: Config, bars: seq<Bar>, s: State, i: nat, rounds: nat) returns (closed: nat)
    requires PositiveBars(bars) && i < |bars| && LedgerOk(cfg, bars, s, rounds) && (s.position.Some? ==> s.position.value.entry < i)
    ensures LedgerOk(cfg, bars, StepBar(cfg, bars, s, i), closed)
  {
    ExitKeepsLedger(cfg, bars, s, i, rounds);
    closed := if Exit(cfg, bars, s, i) == s then rounds else rounds + 1;
    EnterKeepsLedger(cfg, bars, Exit(cfg, bars, s, i), i, closed);
  }

  lemma {:induction false} RunKeepsLedger(cfg: Config, bars: seq<Bar>, n: nat) returns (rounds: nat)
    requires PositiveBars(bars) && n <= |bars|
    ensures LedgerOk(cfg, bars, RunTo(cfg, bars, n), rounds)
  {
    rounds := 0;
    if n > 0 {
      var before := RunKeepsLedger(cfg, bars, n - 1);
      rounds := BarKeepsLedger(cfg, bars, RunTo(cfg, bars, n - 1), n - 1, before);
    }
  }

  /** The account a reader of the trade ledger would rebuild at a bar. */
  function RebuiltEquity(cfg: Config, bars: seq<Bar>, trades: seq<Trade>, now: nat): real
    requires PositiveBars(bars) && StepsWithin(trades, |bars|) && now < |bars|
  {
    cfg.initialCash + ClosedPnl(bars, trades, |trades| / 4) + OpenPnl(bars, trades, now) - Costs(trades)
  }

  lemma EquityOfLedger(cfg: Config, bars: seq<Bar>, s: State, now: nat, rounds: nat)
    requires PositiveBars(bars) && now < |bars| && LedgerOk(cfg, bars, s, rounds)
    ensures s.cash + Unrealized(cfg, bars, s.position, now) == RebuiltEquity(cfg, bars, s.trades, now)
    ensures |s.trades| / 4 == rounds && |s.trades| % 4 == if s.position.Some? then 2 else 0
  {
    assert |s.trades| / 4 == rounds;
    if s.position.Some? {
      OpenLegsGain(cfg, bars, s.trades, s.position.value, now);
    }
  }

  lemma LastEquity(cfg: Config, bars: seq<Bar>, n: nat)
    requires PositiveBars(bars) && 0 < n <= |bars|
    ensures var s := RunTo(cfg, bars, n);
            |s.equities| > 0 && s.equities[|s.equities| - 1] == s.cash + Unrealized(cfg, bars, s.position, n - 1)
  {
  }

  /** For any signal sequence, every point of the equity curve is the account rebuilt from the ledger
      alone: initial cash, plus the profit of the closed rounds, plus that of the open one, minus every
      fee and slippage. Trades come four to a closed round, and two more while a position is open. */
  lemma EquityIsRebuiltFromLedger(cfg: Config, bars: seq<Bar>, n: nat)
    requires PositiveBars(bars) && 0 < n <= |bars|
    ensures var s := RunTo(cfg, bars, n);
            && StepsWithin(s.trades, |bars|) && |s.equities| > 0
            && s.equities[|s.equities| - 1] == RebuiltEquity(cfg, bars, s.trades, n - 1)
            && |s.trades| == 4 * (|s.trades| / 4) + (if s.position.Some? then 2 else 0)
  {
    var rounds := RunKeepsLedger(cfg, bars, n);
    EquityOfLedger(cfg, bars, RunTo(cfg, bars, n), n - 1, rounds);
    LastEquity(cfg, bars, n);
  }
}
