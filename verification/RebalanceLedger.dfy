/** The progress ledger of a cross-exchange rebalance over whole runs of cycles, saves and loads. */
module RebalanceLedger {
  import opened Numbers

  datatype Side = Buy | Sell

  /** The executed plan, as far as progress needs it: quantity, local buy cost, average sell price, sell
      quote rate, what remained of the target, and the progress a full fill is worth. */
  datatype Plan = Plan(quantity: real, buyCostLocal: real, sellAverage: real, sellRate: real, remaining: real, expected: real)

  datatype FilledOrder = FilledOrder(side: Side, filledQuote: real)

  datatype FillStatus = FillStatus(
    buyFilled: real, sellFilled: real, orders: seq<FilledOrder>, hedgeRequired: bool, hedgeSide: Option<Side>, hedgeBase: real)

  datatype Progress = Progress(
    balanced: bool, matchedBase: real, fillRatio: real, sourceLocal: real, quote: real, destinationLocal: real, destination: real)

  // ---- progress of one execution ----

  function SellQuote(orders: seq<FilledOrder>): real {
    if orders == [] then 0.0
    else
      var last := orders[|orders| - 1];
      SellQuote(orders[..|orders| - 1]) + (if last.side == Sell then Max(0.0, last.filledQuote) else 0.0)
  }

  function Matched(f: FillStatus): real {
    Min(Max(0.0, f.buyFilled), Max(0.0, f.sellFilled))
  }

  function FillRatio(p: Plan, f: FillStatus): real {
    if p.quantity > 0.0 then Min(1.0, Matched(f) / p.quantity) else 0.0
  }

  function SellProceeds(p: Plan, f: FillStatus): real {
    if SellQuote(f.orders) <= 0.0 && Matched(f) > 0.0 then Product(Matched(f), p.sellAverage) else SellQuote(f.orders)
  }

  function ProgressOf(p: Plan, f: FillStatus): Progress {
    if f.hedgeRequired then Progress(false, 0.0, 0.0, 0.0, 0.0, 0.0, 0.0)
    else
      Progress(true, Matched(f), FillRatio(p, f), Product(p.buyCostLocal, FillRatio(p, f)),
               Min(p.remaining, Product(p.expected, FillRatio(p, f))), SellProceeds(p, f),
               Min(p.remaining, Product(SellProceeds(p, f), p.sellRate)))
  }

  method ExecutionProgress(p: Plan, f: FillStatus) returns (r: Progress)
    ensures r == ProgressOf(p, f)
  {
    var matched := Min(Max(0.0, f.buyFilled), Max(0.0, f.sellFilled));
    var ratio := if p.quantity > 0.0 then Min(1.0, matched / p.quantity) else 0.0;
    var proceeds := 0.0;
    for i := 0 to |f.orders|
      invariant proceeds == SellQuote(f.orders[..i])
    {
      assert f.orders[..i + 1][..i] == f.orders[..i];
      if f.orders[i].side == Sell {
        proceeds := proceeds + Max(0.0, f.orders[i].filledQuote);
      }
    }
    assert f.orders[..|f.orders|] == f.orders;
    if proceeds <= 0.0 && matched > 0.0 {
      proceeds := Product(matched, p.sellAverage);
    }
    var destination := Min(p.remaining, Product(proceeds, p.sellRate));
    var source := Product(p.buyCostLocal, ratio);
    var quote := Min(p.remaining, Product(p.expected, ratio));
    var balanced := !f.hedgeRequired;
    if !balanced {
      quote, matched, source, destination := 0.0, 0.0, 0.0, 0.0;
    }
    r := Progress(balanced, matched, if balanced then ratio else 0.0, source, quote, if balanced then proceeds else 0.0, destination);
  }

  // ---- the runtime record ----

  datatype Route = Route(buyExchange: string, buySymbol: string, sellExchange: string, sellSymbol: string, common: string)

  datatype Config = Config(route: Route, total: real, enabled: bool)

  datatype CycleStatus =
    | Disabled | Starting | Waiting | Blocked | Advanced | HedgeRequired | NoFill | ExecutionError | Complete | Halted

  datatype Residual = Residual(side: Option<Side>, quantity: real)

  datatype Runtime = Runtime(
    fingerprint: Route, status: CycleStatus, halted: bool, haltReason: Option<CycleStatus>, residual: Option<Residual>, acknowledged: bool,
    quote: real, destination: real, base: real, cycles: nat, liveCycles: nat)

  /** What a cycle returns. Blocked, waiting and dry-run cycles carry no execution. */
  datatype Payload = Payload(status: CycleStatus, live: bool, halt: bool, execution: Option<(Progress, FillStatus)>)

  function NewRuntime(cfg: Config): Runtime {
    Runtime(cfg.route, if cfg.enabled then Starting else Disabled, false, None, None, false, 0.0, 0.0, 0.0, 0, 0)
  }

  const NO_PROGRESS := Progress(false, 0.0, 0.0, 0.0, 0.0, 0.0, 0.0)

  function ProgressIn(p: Payload): Progress {
    if p.execution.Some? then p.execution.value.0 else NO_PROGRESS
  }

  function Left(cfg: Config, r: Runtime): real {
    Max(0.0, cfg.total - r.quote)
  }

  function StatusAfter(cfg: Config, r: Runtime, p: Payload): CycleStatus {
    if r.halted then Halted
    else if Left(cfg, r) <= Max(Product(cfg.total, 0.000000000001), 0.000000001) then Complete
    else p.status
  }

  function ResidualOf(p: Payload): Residual {
    if p.execution.Some? then Residual(p.execution.value.1.hedgeSide, Max(0.0, p.execution.value.1.hedgeBase)) else Residual(None, 0.0)
  }

  function ApplyCycle(r: Runtime, p: Payload, cfg: Config): Runtime {
    var progress := ProgressIn(p);
    var counted := r.(cycles := r.cycles + 1, liveCycles := if p.live then r.liveCycles + 1 else r.liveCycles,
                      quote := Min(Max(0.0, cfg.total), Max(0.0, r.quote) + Max(0.0, progress.quote)),
                      base := Max(0.0, r.base) + Max(0.0, progress.matchedBase),
                      destination := Max(0.0, r.destination) + Max(0.0, progress.destination));
    var halted := if p.halt then counted.(halted := true, haltReason := Some(p.status)) else counted;
    var exposed := if p.halt && p.status == HedgeRequired then halted.(residual := Some(ResidualOf(p)), acknowledged := false) else halted;
    exposed.(status := StatusAfter(cfg, exposed, p))
  }

  const VERSION := 2

  /** The file as the loader may find it. */
  datatype File = Unreadable | Stored(version: int, runtime: Runtime)

  function Save(r: Runtime): File {
    Stored(VERSION, r)
  }

  function Load(f: File, cfg: Config): Runtime {
    if f.Unreadable? || f.version != VERSION || f.runtime.fingerprint != cfg.route then NewRuntime(cfg)
    else f.runtime.(quote := Max(0.0, f.runtime.quote), destination := Max(0.0, f.runtime.destination), base := Max(0.0, f.runtime.base))
  }

  // ---- one cycle, planned from the current progress ----

  /** What happens between planning and the end of a cycle. */
  datatype CycleEnv =
    | NotExecuted(reason: CycleStatus, asLive: bool)
    | Executed(buyCommon: real, quantity: real, buyCostLocal: real, sellAverage: real, sellRate: real,
               fill: FillStatus, reported: CycleStatus, manual: bool, haltOnError: bool)

  function PlanFor(cfg: Config, r: Runtime, e: CycleEnv): Plan
    requires e.Executed?
  {
    var remaining := Max(0.0, Max(0.0, cfg.total) - Max(0.0, r.quote));
    Plan(e.quantity, e.buyCostLocal, e.sellAverage, e.sellRate, remaining, Min(remaining, e.buyCommon))
  }

  function PayloadFor(cfg: Config, r: Runtime, e: CycleEnv): Payload {
    match e
    case NotExecuted(reason, live) => Payload(reason, live, false, None)
    case Executed(_, _, _, _, _, f, reported, manual, haltOnError) =>
      var progress := ProgressOf(PlanFor(cfg, r, e), f);
      var halt := f.hedgeRequired || manual || (haltOnError && reported in {ExecutionError, Blocked, HedgeRequired});
      Payload(if f.hedgeRequired then HedgeRequired else if progress.quote > 0.0 then Advanced else reported, true, halt, Some((progress, f)))
  }

  datatype Event = Cycle(env: CycleEnv) | Restart

  /** A halted runtime starts no cycle; a restart saves and loads the runtime of the same configuration. */
  function Step(cfg: Config, r: Runtime, ev: Event): Runtime {
    match ev
    case Cycle(e) => if r.halted then r else ApplyCycle(r, PayloadFor(cfg, r, e), cfg)
    case Restart => Load(Save(r), cfg)
  }

  function Run(cfg: Config, events: seq<Event>): Runtime {
    if events == [] then NewRuntime(cfg) else Step(cfg, Run(cfg, events[..|events| - 1]), events[|events| - 1])
  }

  /** The progress a step adds: that of a balanced execution, and zero for anything else. */
  function Credit(cfg: Config, r: Runtime, ev: Event): Progress {
    if ev.Cycle? && !r.halted && ev.env.Executed? && !ev.env.fill.hedgeRequired then ProgressOf(PlanFor(cfg, r, ev.env), ev.env.fill) else NO_PROGRESS
  }

  datatype Totals = Totals(quote: real, destination: real, base: real)

  function Credits(cfg: Config, events: seq<Event>): Totals {
    if events == [] then Totals(0.0, 0.0, 0.0)
    else
      var before, n := Credits(cfg, events[..|events| - 1]), |events| - 1;
      var c := Credit(cfg, Run(cfg, events[..n]), events[n]);
      Totals(before.quote + c.quote, before.destination + c.destination, before.base + c.matchedBase)
  }

  /** Executions fill nonnegative quantities of positive plans at positive prices. */
  ghost predicate Sane(ev: Event) {
    ev.Cycle? && ev.env.Executed? ==> ev.env.buyCommon >= 0.0 && ev.env.sellAverage >= 0.0 && ev.env.sellRate >= 0.0
  }

  ghost predicate SaneRun(events: seq<Event>) {
    forall ev :: ev in events ==> Sane(ev)
  }

  lemma {:induction false} SellQuoteIsNonnegative(orders: seq<FilledOrder>)
    ensures SellQuote(orders) >= 0.0
  {
    if orders != [] {
      SellQuoteIsNonnegative(orders[..|orders| - 1]);
    }
  }

  lemma RatioIsFraction(p: Plan, f: FillStatus)
    ensures 0.0 <= FillRatio(p, f) <= 1.0
  {
    if p.quantity > 0.0 {
      DivIsPositive(Matched(f), p.quantity);
    }
  }

  /** Every credit is nonnegative and none of the two quote credits exceeds what remains. */
  lemma CreditFits(cfg: Config, r: Runtime, ev: Event)
    requires Sane(ev)
    ensures var c := Credit(cfg, r, ev);
            && 0.0 <= c.quote <= Max(0.0, Max(0.0, cfg.total) - Max(0.0, r.quote)) && 0.0 <= c.destination && 0.0 <= c.matchedBase
  {
    if ev.Cycle? && ev.env.Executed? {
      var p, f := PlanFor(cfg, r, ev.env), ev.env.fill;
      RatioIsFraction(p, f);
      MulIsNonnegative(p.expected, FillRatio(p, f));
      SellQuoteIsNonnegative(f.orders);
      MulIsNonnegative(Matched(f), p.sellAverage);
      MulIsNonnegative(SellProceeds(p, f), p.sellRate);
    }
  }

  ghost predicate InRange(cfg: Config, r: Runtime) {
    0.0 <= r.quote <= Max(0.0, cfg.total) && 0.0 <= r.destination && 0.0 <= r.base && r.fingerprint == cfg.route
  }

  /** One step adds exactly its credit to all three counters: the clamp never truncates. */
  lemma StepAddsCredit(cfg: Config, r: Runtime, ev: Event)
    requires InRange(cfg, r) && Sane(ev)
    ensures var next, c := Step(cfg, r, ev), Credit(cfg, r, ev);
            && InRange(cfg, next)
            && next.quote == r.quote + c.quote && next.destination == r.destination + c.destination && next.base == r.base + c.matchedBase
  {
    CreditFits(cfg, r, ev);
  }

  /** Over any run, restarts included, the three counters are the exact sums of the balanced cycles'
      progress, and completed plus remaining is the target. */
  lemma {:induction false} CompletedIsSumOfProgress(cfg: Config, events: seq<Event>)
    requires SaneRun(events)
    ensures InRange(cfg, Run(cfg, events))
    ensures var r := Run(cfg, events);
            Credits(cfg, events) == Totals(r.quote, r.destination, r.base)
    ensures Run(cfg, events).quote + Left(cfg, Run(cfg, events)) == Max(0.0, cfg.total)
  {
    if events != [] {
      var n := |events| - 1;
      assert events[n] in events;
      CompletedIsSumOfProgress(cfg, events[..n]);
      StepAddsCredit(cfg, Run(cfg, events[..n]), events[n]);
    }
  }

  /** An unbalanced execution adds nothing to any counter, halts the run and records the exposure. */
  lemma UnbalancedCycleHalts(cfg: Config, r: Runtime, e: CycleEnv)
    requires InRange(cfg, r) && !r.halted && e.Executed? && e.fill.hedgeRequired
    ensures var next := Step(cfg, r, Cycle(e));
            && next.quote == r.quote && next.destination == r.destination && next.base == r.base
            && next.halted && next.status == Halted && next.haltReason == Some(HedgeRequired)
            && next.residual == Some(Residual(e.fill.hedgeSide, Max(0.0, e.fill.hedgeBase))) && !next.acknowledged
  {
  }

  /** A halt is never cleared by a cycle or a restart, and freezes the counters. */
  lemma {:induction false} HaltIsPermanent(cfg: Config, events: seq<Event>, n: nat)
    requires SaneRun(events) && n <= |events| && Run(cfg, events[..n]).halted
    ensures Run(cfg, events) == Run(cfg, events[..n])
  {
    if n == |events| {
      assert events[..n] == events;
    } else {
      var last := |events| - 1;
      assert events[..last][..n] == events[..n];
      HaltIsPermanent(cfg, events[..last], n);
      CompletedIsSumOfProgress(cfg, events[..last]);
    }
  }

  /** In any run the first unbalanced execution is the last event that changes anything: the counters keep
      the sums from before it, and the run stays halted with the exposure on record. */
  lemma UnbalancedExecutionEndsRun(cfg: Config, events: seq<Event>, n: nat)
    requires SaneRun(events) && n < |events| && !Run(cfg, events[..n]).halted
    requires events[n].Cycle? && events[n].env.Executed? && events[n].env.fill.hedgeRequired
    ensures var before, r, f := Run(cfg, events[..n]), Run(cfg, events), events[n].env.fill;
            && r.quote == before.quote && r.destination == before.destination && r.base == before.base
            && r.halted && r.status == Halted && r.haltReason == Some(HedgeRequired)
            && r.residual == Some(Residual(f.hedgeSide, Max(0.0, f.hedgeBase))) && !r.acknowledged
  {
    assert SaneRun(events[..n]);
    assert events[..n + 1][..n] == events[..n];
    CompletedIsSumOfProgress(cfg, events[..n]);
    UnbalancedCycleHalts(cfg, Run(cfg, events[..n]), events[n].env);
    HaltIsPermanent(cfg, events, n + 1);
  }

  /** Saving and loading is the identity exactly when the route is unchanged or the runtime is fresh;
      so it clears a halt if and only if the route changed. */
  lemma LoadAfterSave(cfg: Config, r: Runtime)
    requires r.quote >= 0.0 && r.destination >= 0.0 && r.base >= 0.0
    ensures Load(Save(r), cfg) == r <==> r.fingerprint == cfg.route || r == NewRuntime(cfg)
    ensures r.halted ==> (Load(Save(r), cfg).halted <==> r.fingerprint == cfg.route)
  {
  }
  // ---- proceeds, halts and completion ----

  /** Only sales bring in destination quote: a filled sale adds its quote and a buy adds nothing, in whatever
      order they are listed. */
  lemma ProceedsAreOfSales(orders: seq<FilledOrder>, o: FilledOrder)
    ensures SellQuote(orders + [o]) == SellQuote(orders) + (if o.side == Sell && o.filledQuote > 0.0 then o.filledQuote else 0.0)
  {
    assert (orders + [o])[..|orders|] == orders;
  }

  /** A balanced execution brings in what its sales report; when they report nothing although something
      matched, the matched base is valued at the plan's average sale price. */
  lemma ProceedsFallBackOnAverage(p: Plan, f: FillStatus)
    requires !f.hedgeRequired
    ensures ProgressOf(p, f).destinationLocal
         == if SellQuote(f.orders) > 0.0 || (f.buyFilled <= 0.0 || f.sellFilled <= 0.0) then SellQuote(f.orders)
            else Product(Min(f.buyFilled, f.sellFilled), p.sellAverage)
    ensures ProgressOf(p, f).destination == Min(p.remaining, Product(ProgressOf(p, f).destinationLocal, p.sellRate))
    ensures ProgressOf(p, f).sourceLocal == Product(p.buyCostLocal, ProgressOf(p, f).fillRatio)
  {
    SellQuoteIsNonnegative(f.orders);
  }

  /** A running rebalance halts exactly after an unbalanced execution, one that needs manual intervention, or
      one that failed, was blocked or needed a hedge while errors halt; a cycle without execution never halts. */
  lemma CycleHaltsExactlyWhen(cfg: Config, r: Runtime, e: CycleEnv)
    requires !r.halted
    ensures Step(cfg, r, Cycle(e)).halted <==>
            e.Executed? && (e.fill.hedgeRequired || e.manual
                            || (e.haltOnError && (e.reported == ExecutionError || e.reported == Blocked || e.reported == HedgeRequired)))
    ensures var next := Step(cfg, r, Cycle(e));
            next.cycles == r.cycles + 1 && next.liveCycles == r.liveCycles + (if e.Executed? || e.asLive then 1 else 0)
  {
  }

  /** A running rebalance is complete when at most a negligible part of the target is left; a cycle that left
      more is only reported as its own result says. */
  lemma CompleteExactlyWhen(cfg: Config, r: Runtime, e: CycleEnv)
    requires InRange(cfg, r) && !r.halted && cfg.total >= 0.0 && (e.Executed? ==> e.reported != Complete) && (e.NotExecuted? ==> e.reason != Complete)
    ensures var next := Step(cfg, r, Cycle(e));
            next.status == Complete <==> !next.halted && cfg.total - next.quote <= Max(Product(cfg.total, 0.000000000001), 0.000000001)
  {
  }

  /** A file that cannot be read, of another version or of another route starts afresh. */
  lemma ForeignFileStartsAfresh(f: File, cfg: Config)
    requires f.Unreadable? || f.version != 2 || f.runtime.fingerprint != cfg.route
    ensures Load(f, cfg) == NewRuntime(cfg)
    ensures var r := Load(f, cfg);
            && r.quote == 0.0 && r.destination == 0.0 && r.base == 0.0 && r.cycles == 0 && !r.halted && r.fingerprint == cfg.route
            && r.status == (if cfg.enabled then Starting else Disabled)
  {
  }
  /** A cycle that neither halted nor completed the rebalance reports an advance exactly when it added quote. */
  lemma AdvancedExactlyWhen(cfg: Config, r: Runtime, e: CycleEnv)
    requires InRange(cfg, r) && !r.halted && Sane(Cycle(e)) && (e.Executed? ==> e.reported != Advanced) && (e.NotExecuted? ==> e.reason != Advanced)
    requires Step(cfg, r, Cycle(e)).status != Halted && Step(cfg, r, Cycle(e)).status != Complete
    ensures Step(cfg, r, Cycle(e)).status == Advanced <==> Step(cfg, r, Cycle(e)).quote > r.quote
  {
    StepAddsCredit(cfg, r, Cycle(e));
  }
}
