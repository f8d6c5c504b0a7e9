/** What a stopped task may still do: whether, and when, it can place another order. */
module StoppedTask {
  import opened Numbers
  import opened FillAccounting
  import opened TaskMachine
  import opened TaskAccounting

  /** The cycle reads its activity and goes on to its next slice, the only step that places orders. */
  predicate RunsSlice(t: TaskState, ev: TaskEvent, cfg: TaskConfig) {
    ReadsActivity(t, ev) && ReachesSlice(RefreshState(t, ev.env.refresh.value, cfg), ev.env, cfg)
  }

  predicate ReachesSlice(t: TaskState, e: CycleEnv, cfg: TaskConfig) {
    !IsComplete(t.account, cfg) && (cfg.hasStopPrice ==> e.priceStop == Some(false)) && t.open == {} && !e.mustWait
  }

  lemma ReadsKeepPlaced(t: TaskState, e: CycleEnv, cfg: TaskConfig)
    requires !ReachesSlice(t, e, cfg)
    ensures ActOnRead(t, e, cfg).account.placed == t.account.placed
  {
    StopsKeepAccount(t, e, cfg);
    HandlingReads(t, e, cfg);
  }

  /** A step that runs no slice leaves the placed orders as they were. */
  lemma OnlySlicesPlace(t: TaskState, ev: TaskEvent, cfg: TaskConfig)
    requires !RunsSlice(t, ev, cfg)
    ensures Apply(t, ev, cfg).account.placed == t.account.placed
  {
    if ReadsActivity(t, ev) {
      ReadsKeepPlaced(RefreshState(t, ev.env.refresh.value, cfg), ev.env, cfg);
    } else if ev.RunDue? {
      StopsKeepAccount(t, ev.env, cfg);
    }
  }

  /** Some step of the run goes on to a slice. */
  ghost predicate Slices(t: TaskState, events: seq<TaskEvent>, cfg: TaskConfig) {
    exists k :: 0 <= k < |events| && RunsSlice(States(t, events, cfg)[k], events[k], cfg)
  }

  lemma {:induction false} RestsAt(t: TaskState, events: seq<TaskEvent>, cfg: TaskConfig, k: nat)
    requires Terminal(t.status) && SetPaused(true) !in events && k <= |events|
    ensures States(t, events, cfg)[k] == t
  {
    if k > 0 {
      RestsAt(t, events, cfg, k - 1);
      StatesStep(t, events, cfg, k - 1);
      TerminalMovesOnlyByPause(t, events[k - 1], cfg);
    } else if events != [] {
      StatesStep(t, events, cfg, 0);
    }
  }

  ghost predicate Rests(t: TaskState, events: seq<TaskEvent>, cfg: TaskConfig) {
    forall k :: 0 <= k <= |events| ==> States(t, events, cfg)[k] == t
  }

  /** A finished task, whether complete, stopped or below the minimum, stays exactly as it is through a run
      if and only if nothing pauses it; so without a pause it runs no slice. */
  lemma FinishedTaskRestsExactlyWhen(t: TaskState, events: seq<TaskEvent>, cfg: TaskConfig)
    requires Terminal(t.status)
    ensures Rests(t, events, cfg) <==> SetPaused(true) !in events
    ensures SetPaused(true) !in events ==> !Slices(t, events, cfg)
  {
    if SetPaused(true) in events {
      var k :| 0 <= k < |events| && events[k] == SetPaused(true);
      StatesStep(t, events, cfg, k);
      TerminalMovesOnlyByPause(t, events[k], cfg);
    } else {
      forall k | 0 <= k <= |events|
        ensures States(t, events, cfg)[k] == t
      {
        RestsAt(t, events, cfg, k);
      }
    }
  }

  // ---- when a stop is final ----

  /** No run without a pause places another order for the task. */
  ghost predicate NeverSlices(t: TaskState, cfg: TaskConfig) {
    forall events: seq<TaskEvent> :: SetPaused(true) !in events ==> !Slices(t, events, cfg)
  }

  const NO_ACTIVITY := Snapshot([], [], [])

  /** A due cycle that reads no activity, meets no price limit and may place a slice under one new id. */
  function DueCycle(id: string): TaskEvent {
    RunDue(true, true, CycleEnv(ReadRaised, true, Some(false), Some(NO_ACTIVITY), Some(false), {}, None, false, SliceDone(SlicePlaced, [id])))
  }

  lemma {:induction false} EmptyWindowSum(placed: seq<string>, w: Window, m: Measure)
    requires w == Window([], [])
    ensures WindowSum(placed, w, m) == 0.0
  {
    if placed != [] {
      EmptyWindowSum(placed[..|placed| - 1], w, m);
    }
  }

  /** Reading no activity does not complete a task. */
  lemma EmptyReadKeepsIncomplete(t: TaskState, s: Snapshot, cfg: TaskConfig)
    requires s == NO_ACTIVITY && !IsComplete(t.account, cfg)
    ensures !IsComplete(RefreshState(t, s, cfg).account, cfg) && RefreshState(t, s, cfg).open == {}
    ensures RefreshState(t, s, cfg).account.placed == t.account.placed
  {
    EmptyWindowSum(t.account.placed, s.Win(), Base);
    EmptyWindowSum(t.account.placed, s.Win(), Quote);
  }

  /** A task that is neither finished, paused nor waiting for a stop may place an order in its next cycle. */
  predicate Active(t: TaskState) {
    !Terminal(t.status) && t.status != Paused && t.status != StopCancelPending
  }

  lemma TrackOne(t: TaskState, id: string)
    requires id != "" && id !in t.account.placed
    ensures Track(t, [id]).account.placed == t.account.placed + [id]
  {
    assert [id][..0] == [];
    assert Track(t, []) == t;
  }

  /** A slice that places one order adds it to the placed orders. */
  lemma SlicePlacesOne(t: TaskState, e: CycleEnv, id: string, cfg: TaskConfig)
    requires ReachesSlice(t, e, cfg) && e.slice == SliceDone(SlicePlaced, [id]) && e.logged
    requires id != "" && id !in t.account.placed
    ensures ActOnRead(t, e, cfg).account.placed == t.account.placed + [id]
  {
    TrackOne(t.(status := StatusOf(e.slice.outcome), startTriggered := t.startTriggered || cfg.hasStartPrice), id);
  }

  lemma ActiveTaskSlices(t: TaskState, id: string, cfg: TaskConfig)
    requires Active(t) && !IsComplete(t.account, cfg)
    ensures RunsSlice(t, DueCycle(id), cfg)
    ensures id != "" && id !in t.account.placed ==> Apply(t, DueCycle(id), cfg).account.placed == t.account.placed + [id]
  {
    EmptyReadKeepsIncomplete(t, NO_ACTIVITY, cfg);
    if id != "" && id !in t.account.placed {
      SlicePlacesOne(RefreshState(t, NO_ACTIVITY, cfg), DueCycle(id).env, id, cfg);
    }
  }

  lemma ActiveTaskIsNotFinal(t: TaskState, cfg: TaskConfig)
    requires Active(t) && !IsComplete(t.account, cfg)
    ensures !NeverSlices(t, cfg)
  {
    var events := [DueCycle("order")];
    ActiveTaskSlices(t, "order", cfg);
    StatesStep(t, events, cfg, 0);
    assert RunsSlice(States(t, events, cfg)[0], events[0], cfg);
    assert Slices(t, events, cfg);
  }

  lemma FinishedTaskIsFinal(t: TaskState, cfg: TaskConfig)
    requires Terminal(t.status)
    ensures NeverSlices(t, cfg)
  {
    forall events: seq<TaskEvent> | SetPaused(true) !in events
      ensures !Slices(t, events, cfg)
    {
      FinishedTaskRestsExactlyWhen(t, events, cfg);
    }
  }

  /** The step that ended the stop ran in an available runtime and its event was logged. */
  predicate EndsCleanly(ev: TaskEvent) {
    ev.StopTask? || (ev.RunDue? && ev.runtimeAvailable && ev.env.logged)
  }

  lemma EndedStopIsFailingOrStopped(t: TaskState, ev: TaskEvent, cfg: TaskConfig)
    requires t.status == StopCancelPending && t.target == ToStopped && Apply(t, ev, cfg).status != StopCancelPending
    ensures Apply(t, ev, cfg).account == t.account
    ensures Apply(t, ev, cfg).status == if EndsCleanly(ev) then Stopped else Failing
  {
  }

  /** The exact condition for a stop to be final: once a pending stop has ended before the target was
      reached, no later run without a pause places an order if and only if the step that ended it was a stop
      request or a retry whose event was logged. After a retry that could not be logged, or a cycle without
      its runtime, the task is due again. */
  lemma EndedStopIsFinalExactlyWhen(t: TaskState, ev: TaskEvent, cfg: TaskConfig)
    requires t.status == StopCancelPending && t.target == ToStopped && Apply(t, ev, cfg).status != StopCancelPending
    requires !IsComplete(t.account, cfg)
    ensures NeverSlices(Apply(t, ev, cfg), cfg) <==> EndsCleanly(ev)
  {
    EndedStopIsFailingOrStopped(t, ev, cfg);
    if EndsCleanly(ev) {
      FinishedTaskIsFinal(Apply(t, ev, cfg), cfg);
    } else {
      ActiveTaskIsNotFinal(Apply(t, ev, cfg), cfg);
    }
  }

  /** Pausing and resuming revives a stopped task: its next due cycle places an order. */
  lemma ResumedTaskPlacesOrder(t: TaskState, id: string, cfg: TaskConfig)
    requires t.status == Stopped && !IsComplete(t.account, cfg) && id != "" && id !in t.account.placed
    ensures var resumed := Apply(Apply(t, SetPaused(true), cfg), SetPaused(false), cfg);
            resumed.status == Running && Apply(resumed, DueCycle(id), cfg).account.placed == t.account.placed + [id]
  {
    ActiveTaskSlices(t.(status := Running), id, cfg);
  }

  /** A confirmed stop whose event could not be logged leaves every order cancelled and the task due: its
      next cycle places an order. */
  lemma UnloggedStopPlacesOrder(t: TaskState, ev: TaskEvent, id: string, cfg: TaskConfig)
    requires t.status == StopCancelPending && t.target == ToStopped && t.open == {"old"} && !IsComplete(t.account, cfg)
    requires ev.RunDue? && ev.due && ev.runtimeAvailable && ev.env.confirmation == ReadOpen({}) && !ev.env.logged
    requires id != "" && id !in t.account.placed
    ensures var failed := Apply(t, ev, cfg);
            failed.status == Failing && failed.open == {} && Apply(failed, DueCycle(id), cfg).account.placed == t.account.placed + [id]
  {
    ActiveTaskSlices(Apply(t, ev, cfg), id, cfg);
  }

  // ---- what a cycle makes of the task ----

  /** Only a slice that completed the task or fell below the minimum order ends it, and only when logged. */
  lemma SliceEndsTaskExactlyWhen(t: TaskState, e: CycleEnv, cfg: TaskConfig)
    requires Active(t)
    ensures Terminal(RunSlice(t, e, cfg).status)
            <==> e.slice.SliceDone? && e.logged && (e.slice.outcome.SliceComplete? || e.slice.outcome.SliceBelowMinimum?)
    ensures RunSlice(t, e, cfg).status == Complete <==> e.slice.SliceDone? && e.logged && e.slice.outcome.SliceComplete?
    ensures RunSlice(t, e, cfg).status == Failing <==> e.slice.SliceFailed? || !e.logged
    ensures e.slice.SliceDone? && e.logged && e.slice.outcome.SlicePlaced? <==> RunSlice(t, e, cfg).status == WaitingForFill
  {
    if e.slice.SliceDone? {
      TrackKeepsStatus(t.(status := StatusOf(e.slice.outcome),
                          startTriggered := t.startTriggered || (cfg.hasStartPrice && !e.slice.outcome.SliceWaitsForStart?)), e.slice.newIds);
    }
  }

  /** The fills reached one of the configured targets. */
  predicate ReachesTarget(a: Account, targets: Targets) {
    (targets.base > 0.0 && a.base >= targets.base) || (targets.quote > 0.0 && a.quote >= targets.quote)
  }

  /** A cycle completes a task exactly when the fills it read reach a target, or its own slice says so. */
  lemma CycleCompletesExactlyWhen(t: TaskState, ev: TaskEvent, cfg: TaskConfig)
    requires Active(t) && ReadsActivity(t, ev)
    ensures Apply(t, ev, cfg).status == Complete <==>
            || ReachesTarget(RefreshState(t, ev.env.refresh.value, cfg).account, cfg.targets)
            || (RunsSlice(t, ev, cfg) && ev.env.slice.SliceDone? && ev.env.logged && ev.env.slice.outcome.SliceComplete?)
  {
    var read := RefreshState(t, ev.env.refresh.value, cfg);
    SliceEndsTaskExactlyWhen(read, ev.env, cfg);
    HandlingNeverStops(read, ev.env, cfg);
  }

  // ---- the stop price ----

  /** The stop price was reached and the start price has not been reached since. */
  predicate AwaitsStart(t: TaskState) {
    t.stopPriceSeen && !t.startTriggered
  }

  /** A price stop that acts, the first one or one after a start: it fails exactly when its event could not be
      logged or its cancel request raised, it waits for confirmation exactly when some order it asked to
      cancel was not shown absent, and it keeps exactly those. */
  lemma StopPriceActsExactlyWhen(t: TaskState, e: CycleEnv, cfg: TaskConfig, id: string)
    requires Active(t) && (t.startTriggered || (!cfg.hasStartPrice && !t.stopPriceSeen))
    ensures var next := PriceStop(t, e, cfg);
            && next.stopPriceSeen
            && (next.status == Failing <==> !e.logged || (t.open != {} && e.confirmation.CancelRaised?))
            && (next.status == StopCancelPending <==> e.logged && !e.confirmation.CancelRaised? && next.open != {})
            && (id in next.open <==> id in t.open && (e.confirmation.ReadOpen? ==> id in e.confirmation.ids))
  {
  }

  /** A cycle that meets the stop price cancels at most once per start: it ends waiting for the start price,
      or with the stop pending, or failing, and while it awaits the start a further one changes nothing
      but the status. */
  lemma StopPriceActsOncePerStart(t: TaskState, e: CycleEnv, cfg: TaskConfig)
    requires Active(t)
    ensures AwaitsStart(t) ==> PriceStop(t, e, cfg) == t.(status := WaitingForStartPrice)
    ensures PriceStop(t, e, cfg).status in {WaitingForStartPrice, StopCancelPending, Failing}
    ensures PriceStop(t, e, cfg).status == WaitingForStartPrice ==> !PriceStop(t, e, cfg).startTriggered
    ensures PriceStop(t, e, cfg).status == StopCancelPending ==> PriceStop(t, e, cfg).target == ToStartPrice
    ensures t.startTriggered && PriceStop(t, e, cfg).status == WaitingForStartPrice ==>
              PriceStop(t, e, cfg).open == {} && AwaitsStart(PriceStop(t, e, cfg))
  {
  }
  /** Enabling coordination restarts only a task that the guard blocked before it placed or filled anything. */
  lemma CoordinationRestartsExactlyWhen(t: TaskState, guardBlocked: bool, cfg: TaskConfig)
    ensures Apply(t, EnableCoordination(guardBlocked), cfg)
         == if t.status == BlockedByRisk && guardBlocked && t.open == {} && t.account.placed == [] && t.account.base <= 0.0 && t.account.quote <= 0.0
            then t.(status := Running) else t
  {
  }
  /** While earlier orders are unresolved a due cycle only marks the task as recovering. */
  lemma UnresolvedOrdersOnlyRecover(t: TaskState, ev: TaskEvent, cfg: TaskConfig)
    requires Active(t) && ev.RunDue? && ev.due && ev.runtimeAvailable && ev.env.unresolved == Some(true)
    ensures Apply(t, ev, cfg) == t.(status := Recovering)
  {
  }
}
