/** The Auto Buy/Sell task machine: service calls and task cycles, each taken as one atomic step. */
module TaskMachine {
  import opened Numbers
  import opened FillAccounting

  datatype Status =
    | Running | Recovering | CoordinatingMm | WaitingForStartPrice | WaitingForFill | WaitingForInterval
    | StopCancelPending | BlockedByRisk | Failing | Paused | StoppedByPrice
    | Complete | Stopped | BelowMinOrderQuote

  predicate Terminal(s: Status) {
    s == Complete || s == Stopped || s == BelowMinOrderQuote
  }

  /** Where a confirmed stop leads. */
  datatype StopTarget = ToStopped | ToStartPrice

  datatype TaskConfig = TaskConfig(targets: Targets, hasStartPrice: bool, hasStopPrice: bool, hasOrderTtl: bool)

  datatype TaskState = TaskState(
    status: Status, open: set<string>, account: Account, target: StopTarget, startTriggered: bool, stopPriceSeen: bool)

  // ---- what the exchange and the runtime answer ----

  /** Cancel requests for some ids, then a read of the open orders. The requests themselves may raise
      before the read, and the read may raise. */
  datatype Confirmation = CancelRaised | ReadRaised | ReadOpen(ids: set<string>)

  datatype Snapshot = Snapshot(openOrders: seq<OrderRow>, closedOrders: seq<OrderRow>, trades: seq<Trade>) {
    function Win(): Window {
      Window(openOrders + closedOrders, trades)
    }
  }

  /** How a slice execution cycle ended. */
  datatype SliceResult = SliceFailed | SliceDone(outcome: SliceOutcome, newIds: seq<string>)

  datatype SliceOutcome =
    | SliceComplete | SliceStoppedByPrice | SliceWaitsForStart | SliceBelowMinimum
    | SlicePlanned | SliceBlocked | SlicePlaced | SliceCoordinating

  datatype CycleEnv = CycleEnv(
    confirmation: Confirmation,        // answers the cancel requests of this cycle, if it makes any
    logged: bool,                      // whether writing the cycle's event succeeds
    unresolved: Option<bool>,          // order recovery: None raises, Some(true) leaves intents unresolved
    refresh: Option<Snapshot>,         // the first activity read
    priceStop: Option<bool>,           // the price check: None raises
    expired: set<string>,              // open orders past their time to live
    secondRefresh: Option<Snapshot>,   // the read after cancelling expired orders
    mustWait: bool,                    // the next slice is not due yet
    slice: SliceResult)

  datatype TaskEvent =
    | StopTask(cancelOpenOrders: bool, confirmation: Confirmation, logged: bool)
    | SetPaused(paused: bool)
    | EnableCoordination(guardBlocked: bool)
    | RunDue(due: bool, runtimeAvailable: bool, env: CycleEnv)

  // ---- the steps as functions ----

  /** The requested ids a confirmation leaves open: all of them when the read fails. */
  function Remaining(ids: set<string>, c: Confirmation): set<string> {
    if c.ReadOpen? then ids * c.ids else ids
  }

  function OpenAfter(a: Account, s: Snapshot): set<string> {
    set r | r in s.openOrders && r.id in a.placed && r.id != "" :: r.id
  }

  function RefreshState(t: TaskState, s: Snapshot, cfg: TaskConfig): TaskState {
    t.(account := Refreshed(t.account, s.Win(), cfg.targets), open := if t.account.placed == [] then {} else OpenAfter(t.account, s))
  }

  predicate IsComplete(a: Account, cfg: TaskConfig) {
    (cfg.targets.base > 0.0 && a.base >= cfg.targets.base) || (cfg.targets.quote > 0.0 && a.quote >= cfg.targets.quote)
  }

  function Rearm(t: TaskState): TaskState {
    t.(status := WaitingForStartPrice, startTriggered := false)
  }

  /** An exception inside a cycle: a pending stop stays pending, anything else becomes an error. */
  function Raised(t: TaskState): TaskState {
    if t.status == StopCancelPending then t else t.(status := Failing)
  }

  function RetryPendingStop(t: TaskState, e: CycleEnv): TaskState {
    if t.open != {} && e.confirmation.CancelRaised? then Raised(t)
    else
      var left := Remaining(t.open, e.confirmation);
      var next := if left != {} then t.(open := left)
                  else if t.target == ToStartPrice then Rearm(t.(open := {}))
                  else t.(open := {}, status := Stopped);
      if e.logged then next else Raised(next)
  }

  function PriceStop(t: TaskState, e: CycleEnv, cfg: TaskConfig): TaskState {
    if !t.startTriggered && (cfg.hasStartPrice || t.stopPriceSeen) then t.(status := WaitingForStartPrice)
    else
      var seen := t.(stopPriceSeen := true);
      if t.open == {} then
        var rearmed := Rearm(seen.(target := ToStartPrice));
        if e.logged then rearmed else Raised(rearmed)
      else if e.confirmation.CancelRaised? then Raised(seen)
      else
        var left := seen.(open := Remaining(t.open, e.confirmation), target := ToStartPrice);
        if !e.logged then Raised(left)
        else if left.open != {} then left.(status := StopCancelPending)
        else Rearm(left)
  }

  function HandleOpenOrders(t: TaskState, e: CycleEnv, cfg: TaskConfig): TaskState {
    if !cfg.hasOrderTtl || t.open * e.expired == {} then t.(status := WaitingForFill)
    else if e.confirmation.CancelRaised? then Raised(t)
    else
      var canceled := t.(open := t.open - e.expired, status := Running);
      if !e.logged || e.secondRefresh.None? then Raised(canceled) else RefreshState(canceled, e.secondRefresh.value, cfg)
  }

  function Track(t: TaskState, ids: seq<string>): TaskState {
    if ids == [] then t
    else
      var before, id := Track(t, ids[..|ids| - 1]), ids[|ids| - 1];
      if id == "" || id in before.account.placed then before
      else before.(account := Placed(before.account, id), open := before.open + {id})
  }

  function StatusOf(o: SliceOutcome): Status {
    match o
    case SliceComplete => Complete
    case SliceStoppedByPrice => StoppedByPrice
    case SliceWaitsForStart => WaitingForStartPrice
    case SliceBelowMinimum => BelowMinOrderQuote
    case SlicePlanned => Running
    case SliceBlocked => BlockedByRisk
    case SlicePlaced => WaitingForFill
    case SliceCoordinating => CoordinatingMm
  }

  function RunSlice(t: TaskState, e: CycleEnv, cfg: TaskConfig): TaskState {
    if e.slice.SliceFailed? then Raised(t)
    else
      var done := Track(t.(status := StatusOf(e.slice.outcome),
                           startTriggered := t.startTriggered || (cfg.hasStartPrice && !e.slice.outcome.SliceWaitsForStart?)),
                        e.slice.newIds);
      if e.logged then done else Raised(done)
  }

  function RunCycle(t: TaskState, e: CycleEnv, cfg: TaskConfig): TaskState {
    if t.status == StopCancelPending then RetryPendingStop(t, e)
    else if e.unresolved.None? then Raised(t)
    else if e.unresolved.value then t.(status := Recovering)
    else if e.refresh.None? then Raised(t)
    else ActOnRead(RefreshState(t, e.refresh.value, cfg), e, cfg)
  }

  /** The rest of a cycle, once the activity of the task's orders has been read. */
  function ActOnRead(t: TaskState, e: CycleEnv, cfg: TaskConfig): TaskState {
    if IsComplete(t.account, cfg) then t.(status := Complete)
    else if cfg.hasStopPrice && e.priceStop.None? then Raised(t)
    else if cfg.hasStopPrice && e.priceStop.value then PriceStop(t, e, cfg)
    else if t.open != {} then HandleOpenOrders(t, e, cfg)
    else if e.mustWait then t.(status := WaitingForInterval)
    else RunSlice(t, e, cfg)
  }

  function Apply(t: TaskState, ev: TaskEvent, cfg: TaskConfig): TaskState {
    match ev
    case StopTask(cancel, c, logged) =>
      if Terminal(t.status) then t
      else if !cancel || t.open == {} then t.(status := Stopped)
      else if c.CancelRaised? || !logged then t
      else
        var left := t.(open := Remaining(t.open, c), target := ToStopped);
        left.(status := if left.open != {} then StopCancelPending else Stopped)
    case SetPaused(paused) =>
      if t.status == StopCancelPending then t
      else if paused then t.(status := Paused)
      else if Terminal(t.status) then t
      else t.(status := Running)
    case EnableCoordination(guardBlocked) =>
      if t.status == BlockedByRisk && guardBlocked && t.open == {} && t.account.placed == []
         && t.account.base <= 0.0 && t.account.quote <= 0.0
      then t.(status := Running)
      else t
    case RunDue(due, available, e) =>
      if Terminal(t.status) || t.status == Paused || !due then t
      else if !available then t.(status := Failing)
      else RunCycle(t, e, cfg)
  }

  // ---- stop protocol ----

  /** The confirmation a step runs for the tracked orders, if it requests their cancellation. */
  function StopConfirmation(t: TaskState, ev: TaskEvent): Option<Confirmation> {
    if t.open == {} then None
    else match ev
      case StopTask(cancel, c, _) => if cancel && !Terminal(t.status) then Some(c) else None
      case RunDue(due, available, e) =>
        if due && available && t.status == StopCancelPending then Some(e.confirmation) else None
      case _ => None
  }

  /** The step requested cancellation of every tracked order and then read the exchange. */
  ghost predicate ReadAfterCancel(t: TaskState, ev: TaskEvent) {
    StopConfirmation(t, ev).Some? && StopConfirmation(t, ev).value.ReadOpen?
  }

  /** The ways out of a pending stop that consult no read: a stop that declines to cancel, and the
      runtime being unavailable. */
  predicate SkipsConfirmation(ev: TaskEvent) {
    (ev.StopTask? && !ev.cancelOpenOrders) || (ev.RunDue? && ev.due && !ev.runtimeAvailable)
  }

  ghost predicate StateOk(t: TaskState) {
    t.status == StopCancelPending ==> t.open != {}
  }

  lemma DisjointMeansNoneRemain(ids: set<string>, read: set<string>)
    ensures ids !! read <==> ids * read == {}
  {
    if ids * read == {} {
      forall id | id in ids
        ensures id !in read
      {
        assert id in read ==> id in ids * read;
      }
    }
  }

  /** Exactly when a step ends a pending stop: it skips confirmation, or it is a confirmed read after
      a cancel request that shows none of the tracked orders. A confirmed manual stop whose event
      cannot be logged leaves the task unchanged, so it does not end the pending stop either. */
  lemma PendingEndsExactlyWhen(t: TaskState, ev: TaskEvent, cfg: TaskConfig)
    requires t.status == StopCancelPending && t.open != {}
    ensures Apply(t, ev, cfg).status != StopCancelPending <==>
            || SkipsConfirmation(ev)
            || (ReadAfterCancel(t, ev) && t.open !! StopConfirmation(t, ev).value.ids && (ev.StopTask? ==> ev.logged))
  {
    if ReadAfterCancel(t, ev) {
      DisjointMeansNoneRemain(t.open, StopConfirmation(t, ev).value.ids);
    }
  }

  /** A step that stays pending forgets an order only if a read after a cancel request missed it. */
  lemma PendingForgetsOnlyConfirmed(t: TaskState, ev: TaskEvent, cfg: TaskConfig, id: string)
    requires t.status == StopCancelPending && id in t.open && id !in Apply(t, ev, cfg).open && !SkipsConfirmation(ev)
    ensures ReadAfterCancel(t, ev) && id !in StopConfirmation(t, ev).value.ids
  {
  }

  lemma {:induction false} TrackKeepsStatus(t: TaskState, ids: seq<string>)
    ensures Track(t, ids).status == t.status && t.open <= Track(t, ids).open && Track(t, ids).target == t.target
  {
    if ids != [] {
      TrackKeepsStatus(t, ids[..|ids| - 1]);
    }
  }

  lemma SliceNeverStops(t: TaskState, e: CycleEnv, cfg: TaskConfig)
    requires t.status != StopCancelPending
    ensures RunSlice(t, e, cfg).status != StopCancelPending && RunSlice(t, e, cfg).status != Stopped
  {
    if e.slice.SliceDone? {
      TrackKeepsStatus(t.(status := StatusOf(e.slice.outcome),
                          startTriggered := t.startTriggered || (cfg.hasStartPrice && !e.slice.outcome.SliceWaitsForStart?)),
                       e.slice.newIds);
    }
  }

  lemma HandlingNeverStops(t: TaskState, e: CycleEnv, cfg: TaskConfig)
    requires t.status != StopCancelPending
    ensures HandleOpenOrders(t, e, cfg).status in {WaitingForFill, Running, Failing}
  {
  }

  lemma PriceStopKeepsOrdersPending(t: TaskState, e: CycleEnv, cfg: TaskConfig)
    requires t.status != StopCancelPending
    ensures PriceStop(t, e, cfg).status != Stopped
    ensures PriceStop(t, e, cfg).status == StopCancelPending ==> PriceStop(t, e, cfg).open != {} && PriceStop(t, e, cfg).target == ToStartPrice
  {
  }

  lemma ActingNeverStops(t: TaskState, e: CycleEnv, cfg: TaskConfig)
    requires t.status != StopCancelPending && t.status != Stopped
    ensures ActOnRead(t, e, cfg).status != Stopped
    ensures ActOnRead(t, e, cfg).status == StopCancelPending ==> ActOnRead(t, e, cfg).open != {}
  {
    SliceNeverStops(t, e, cfg);
    HandlingNeverStops(t, e, cfg);
    PriceStopKeepsOrdersPending(t, e, cfg);
  }

  lemma CycleNeverStops(t: TaskState, e: CycleEnv, cfg: TaskConfig)
    requires t.status != StopCancelPending && t.status != Stopped
    ensures RunCycle(t, e, cfg).status != Stopped
    ensures RunCycle(t, e, cfg).status == StopCancelPending ==> RunCycle(t, e, cfg).open != {}
  {
    if e.refresh.Some? {
      ActingNeverStops(RefreshState(t, e.refresh.value, cfg), e, cfg);
    }
  }

  /** Pending always means orders are still tracked. */
  lemma StateOkIsKept(t: TaskState, ev: TaskEvent, cfg: TaskConfig)
    requires StateOk(t)
    ensures StateOk(Apply(t, ev, cfg))
  {
    if ev.RunDue? && t.status != StopCancelPending && t.status != Stopped {
      CycleNeverStops(t, ev.env, cfg);
    }
  }

  /** Only a stop request or a pending stop's confirmed retry produces `Stopped`, and when it asked for
      cancellation no order is left open. */
  lemma StoppedLeavesNothingOpen(t: TaskState, ev: TaskEvent, cfg: TaskConfig)
    requires t.status != Stopped && Apply(t, ev, cfg).status == Stopped
    ensures (ev.StopTask? && !ev.cancelOpenOrders) || Apply(t, ev, cfg).open == {}
    ensures ev.StopTask? || (ev.RunDue? && t.status == StopCancelPending && t.target == ToStopped)
  {
    if ev.RunDue? && t.status != StopCancelPending {
      CycleNeverStops(t, ev.env, cfg);
    }
  }

  /** A terminal task moves only by being paused. */
  lemma TerminalMovesOnlyByPause(t: TaskState, ev: TaskEvent, cfg: TaskConfig)
    requires Terminal(t.status)
    ensures Apply(t, ev, cfg) != t <==> ev == SetPaused(true)
  {
  }

  // ---- runs ----

  function States(t: TaskState, events: seq<TaskEvent>, cfg: TaskConfig): (s: seq<TaskState>)
    ensures |s| == |events| + 1
  {
    if events == [] then [t]
    else
      var before := States(t, events[..|events| - 1], cfg);
      before + [Apply(before[|before| - 1], events[|events| - 1], cfg)]
  }

  lemma {:induction false} StatesStep(t: TaskState, events: seq<TaskEvent>, cfg: TaskConfig, n: nat)
    requires n < |events|
    ensures States(t, events, cfg)[0] == t
    ensures States(t, events, cfg)[n + 1] == Apply(States(t, events, cfg)[n], events[n], cfg)
  {
    if n < |events| - 1 {
      StatesStep(t, events[..|events| - 1], cfg, n);
    } else if n > 0 {
      StatesStep(t, events[..|events| - 1], cfg, n - 1);
    }
  }

  /** Some step before `n` requested cancellation of `id` and then read the exchange without it. */
  ghost predicate ConfirmedAbsent(t: TaskState, events: seq<TaskEvent>, cfg: TaskConfig, n: nat, id: string)
    requires n <= |events|
  {
    exists k :: 0 <= k < n && ConfirmedAt(t, events, cfg, k, id)
  }

  ghost predicate ConfirmedAt(t: TaskState, events: seq<TaskEvent>, cfg: TaskConfig, k: nat, id: string)
    requires k < |events|
  {
    var s := States(t, events, cfg)[k];
    id in s.open && ReadAfterCancel(s, events[k]) && id !in StopConfirmation(s, events[k]).value.ids
  }

  /** While a stop is pending, every order tracked when it began is still tracked or confirmed absent. */
  lemma {:induction false} PendingAccountsForOrders(t: TaskState, events: seq<TaskEvent>, cfg: TaskConfig, n: nat, id: string)
    requires n <= |events| && id in t.open
    requires forall k :: 0 <= k < n ==> States(t, events, cfg)[k].status == StopCancelPending && !SkipsConfirmation(events[k])
    ensures id in States(t, events, cfg)[n].open || ConfirmedAbsent(t, events, cfg, n, id)
  {
    if n == 0 {
      if events != [] {
        StatesStep(t, events, cfg, 0);
      }
    } else {
      PendingAccountsForOrders(t, events, cfg, n - 1, id);
      StatesStep(t, events, cfg, n - 1);
      var s := States(t, events, cfg)[n - 1];
      if id in s.open && id !in Apply(s, events[n - 1], cfg).open {
        PendingForgetsOnlyConfirmed(s, events[n - 1], cfg, id);
        assert ConfirmedAt(t, events, cfg, n - 1, id);
      }
    }
  }

  /** Stop safety over runs: when a pending stop ends, at any later step, without the runtime missing
      and without a stop that declines to cancel, every order it tracked had been shown absent by a
      successful read made after its cancellation was requested. Failed reads, exceptions, pauses and
      resumes in between release nothing. */
  lemma StopReleasesOnlyConfirmedOrders(t: TaskState, events: seq<TaskEvent>, cfg: TaskConfig, n: nat, id: string)
    requires t.status == StopCancelPending && id in t.open && n < |events|
    requires forall k :: 0 <= k <= n ==> States(t, events, cfg)[k].status == StopCancelPending && !SkipsConfirmation(events[k])
    requires States(t, events, cfg)[n + 1].status != StopCancelPending
    ensures ConfirmedAbsent(t, events, cfg, n + 1, id)
  {
    PendingAccountsForOrders(t, events, cfg, n, id);
    StatesStep(t, events, cfg, n);
    var s := States(t, events, cfg)[n];
    if id in s.open {
      PendingEndsExactlyWhen(s, events[n], cfg);
      assert ConfirmedAt(t, events, cfg, n, id);
    } else {
      var k :| 0 <= k < n && ConfirmedAt(t, events, cfg, k, id);
      assert ConfirmedAt(t, events, cfg, k, id);
    }
  }

  /** The stop that declines to cancel really does release a pending stop with orders open. */
  lemma UncancelledStopReleasesOpenOrders(a: Account, cfg: TaskConfig)
    ensures var t := TaskState(StopCancelPending, {"order"}, a, ToStopped, false, false);
            Apply(t, StopTask(false, ReadRaised, true), cfg).status == Stopped && Apply(t, StopTask(false, ReadRaised, true), cfg).open == {"order"}
  {
  }
}
