/** A task's account over a whole run is the incremental accounting of the reads and placements the run
    performs, so the bounds and the exactness of that accounting hold for every task. */
module TaskAccounting {
  import opened Numbers
  import opened FillAccounting
  import opened TaskMachine

  function PlacementsOf(ids: seq<string>): seq<Event> {
    if ids == [] then []
    else
      var last := ids[|ids| - 1];
      PlacementsOf(ids[..|ids| - 1]) + (if last == "" then [] else [Place(last)])
  }

  /** Expired orders were cancelled and the activity is read once more. */
  predicate ReadsAgain(t: TaskState, e: CycleEnv, cfg: TaskConfig) {
    cfg.hasOrderTtl && t.open * e.expired != {} && !e.confirmation.CancelRaised? && e.logged && e.secondRefresh.Some?
  }

  /** What a cycle does to the account after its first read. */
  function ActivityAfterRead(t: TaskState, e: CycleEnv, cfg: TaskConfig): seq<Event> {
    if IsComplete(t.account, cfg) || (cfg.hasStopPrice && (e.priceStop.None? || e.priceStop.value)) then []
    else if t.open != {} then
      (if ReadsAgain(t, e, cfg) then [Read(e.secondRefresh.value.Win())] else [])
    else if e.mustWait || e.slice.SliceFailed? then []
    else PlacementsOf(e.slice.newIds)
  }

  predicate ReadsActivity(t: TaskState, ev: TaskEvent) {
    && ev.RunDue? && !Terminal(t.status) && t.status != Paused && ev.due && ev.runtimeAvailable
    && t.status != StopCancelPending && ev.env.unresolved == Some(false) && ev.env.refresh.Some?
  }

  /** The reads and placements of one step: stops, pauses and pending retries perform none. */
  function Activity(t: TaskState, ev: TaskEvent, cfg: TaskConfig): seq<Event> {
    if !ReadsActivity(t, ev) then []
    else [Read(ev.env.refresh.value.Win())] + ActivityAfterRead(RefreshState(t, ev.env.refresh.value, cfg), ev.env, cfg)
  }

  function AfterEvent(a: Account, e: Event, t: Targets): Account {
    match e
    case Place(order) => Placed(a, order)
    case Read(w) => Refreshed(a, w, t)
  }

  function AfterEvents(a: Account, events: seq<Event>, t: Targets): Account {
    if events == [] then a else AfterEvent(AfterEvents(a, events[..|events| - 1], t), events[|events| - 1], t)
  }

  lemma {:induction false} AfterConcat(a: Account, x: seq<Event>, y: seq<Event>, t: Targets)
    ensures AfterEvents(a, x + y, t) == AfterEvents(AfterEvents(a, x, t), y, t)
  {
    if y == [] {
      assert x + y == x;
    } else {
      AfterConcat(a, x, y[..|y| - 1], t);
      assert (x + y)[..|x + y| - 1] == x + y[..|y| - 1];
    }
  }

  lemma AfterOne(a: Account, e: Event, t: Targets)
    ensures AfterEvents(a, [e], t) == AfterEvent(a, e, t)
  {
    assert [e][..0] == [];
  }

  lemma PlaceOneMore(a: Account, before: seq<Event>, id: string, targets: Targets)
    ensures AfterEvents(a, before + [Place(id)], targets) == Placed(AfterEvents(a, before, targets), id)
  {
    assert (before + [Place(id)])[..|before|] == before;
  }

  lemma PlacementsStep(ids: seq<string>)
    requires ids != []
    ensures var n := |ids| - 1;
            PlacementsOf(ids) == if ids[n] == "" then PlacementsOf(ids[..n]) else PlacementsOf(ids[..n]) + [Place(ids[n])]
  {
  }

  lemma TrackStep(t: TaskState, ids: seq<string>)
    requires ids != []
    ensures var n := |ids| - 1;
            var before := Track(t, ids[..n]).account;
            Track(t, ids).account == if ids[n] == "" then before else Placed(before, ids[n])
  {
  }

  lemma {:induction false} TrackingPlaces(t: TaskState, ids: seq<string>, targets: Targets)
    ensures Track(t, ids).account == AfterEvents(t.account, PlacementsOf(ids), targets)
  {
    if ids != [] {
      var n := |ids| - 1;
      TrackingPlaces(t, ids[..n], targets);
      TrackStep(t, ids);
      PlacementsStep(ids);
      PlaceOneMore(t.account, PlacementsOf(ids[..n]), ids[n], targets);
    }
  }

  lemma StopsKeepAccount(t: TaskState, e: CycleEnv, cfg: TaskConfig)
    ensures TaskMachine.RetryPendingStop(t, e).account == t.account && PriceStop(t, e, cfg).account == t.account
  {
  }

  lemma HandlingReads(t: TaskState, e: CycleEnv, cfg: TaskConfig)
    ensures HandleOpenOrders(t, e, cfg).account
         == if ReadsAgain(t, e, cfg) then Refreshed(t.account, e.secondRefresh.value.Win(), cfg.targets) else t.account
  {
  }

  lemma SlicePlaces(t: TaskState, e: CycleEnv, cfg: TaskConfig)
    ensures RunSlice(t, e, cfg).account
         == if e.slice.SliceFailed? then t.account else AfterEvents(t.account, PlacementsOf(e.slice.newIds), cfg.targets)
  {
    if e.slice.SliceDone? {
      var started := t.(status := StatusOf(e.slice.outcome),
                        startTriggered := t.startTriggered || (cfg.hasStartPrice && !e.slice.outcome.SliceWaitsForStart?));
      TrackingPlaces(started, e.slice.newIds, cfg.targets);
    }
  }

  lemma HandlingAccounts(t: TaskState, e: CycleEnv, cfg: TaskConfig)
    ensures HandleOpenOrders(t, e, cfg).account
         == AfterEvents(t.account, if ReadsAgain(t, e, cfg) then [Read(e.secondRefresh.value.Win())] else [], cfg.targets)
  {
    HandlingReads(t, e, cfg);
    if e.secondRefresh.Some? {
      AfterOne(t.account, Read(e.secondRefresh.value.Win()), cfg.targets);
    }
  }

  lemma ActingAccounts(t: TaskState, e: CycleEnv, cfg: TaskConfig)
    ensures ActOnRead(t, e, cfg).account == AfterEvents(t.account, ActivityAfterRead(t, e, cfg), cfg.targets)
  {
    StopsKeepAccount(t, e, cfg);
    HandlingAccounts(t, e, cfg);
    SlicePlaces(t, e, cfg);
  }

  /** One step of a task changes its account exactly by the step's activity. */
  lemma StepAccounts(t: TaskState, ev: TaskEvent, cfg: TaskConfig)
    ensures Apply(t, ev, cfg).account == AfterEvents(t.account, Activity(t, ev, cfg), cfg.targets)
  {
    if ReadsActivity(t, ev) {
      var read := RefreshState(t, ev.env.refresh.value, cfg);
      ActingAccounts(read, ev.env, cfg);
      AfterOne(t.account, Read(ev.env.refresh.value.Win()), cfg.targets);
      AfterConcat(t.account, [Read(ev.env.refresh.value.Win())], ActivityAfterRead(read, ev.env, cfg), cfg.targets);
    } else if ev.RunDue? {
      StopsKeepAccount(t, ev.env, cfg);
    }
  }

  /** The reads and placements of a whole run. */
  function History(t: TaskState, events: seq<TaskEvent>, cfg: TaskConfig): seq<Event> {
    if events == [] then []
    else
      var n := |events| - 1;
      var before := States(t, events[..n], cfg);
      History(t, events[..n], cfg) + Activity(before[|before| - 1], events[n], cfg)
  }

  lemma {:induction false} RunIsAfterEvents(events: seq<Event>, t: Targets)
    ensures FillAccounting.Run(events, t).0 == AfterEvents(NEW_ACCOUNT, events, t)
  {
    if events != [] {
      RunIsAfterEvents(events[..|events| - 1], t);
    }
  }

  lemma {:induction false} RunAccounts(t: TaskState, events: seq<TaskEvent>, cfg: TaskConfig)
    ensures var states := States(t, events, cfg);
            states[|states| - 1].account == AfterEvents(t.account, History(t, events, cfg), cfg.targets)
  {
    if events != [] {
      var n := |events| - 1;
      var before := States(t, events[..n], cfg);
      RunAccounts(t, events[..n], cfg);
      StepAccounts(before[|before| - 1], events[n], cfg);
      AfterConcat(t.account, History(t, events[..n], cfg), Activity(before[|before| - 1], events[n], cfg), cfg.targets);
    }
  }

  /** Any run of a fresh task, through stops, failures, retries and pauses, accounts as the incremental
      accounting of its history: its fills stay between the capped distinct trades and the target, and
      are exactly the capped distinct trades when nothing arrived late. */
  lemma TaskFillsAreAccounted(t: TaskState, events: seq<TaskEvent>, cfg: TaskConfig, m: Measure)
    requires t.account == NEW_ACCOUNT && WellReported(History(t, events, cfg), cfg.targets)
    ensures var a, observed := States(t, events, cfg)[|events|].account, FillAccounting.Run(History(t, events, cfg), cfg.targets).1;
            && InRange(a, observed, cfg.targets, m)
            && (NothingArrivesLate(History(t, events, cfg), cfg.targets) ==> Exact(a, observed, cfg.targets, m))
  {
    var history := History(t, events, cfg);
    RunAccounts(t, events, cfg);
    RunIsAfterEvents(history, cfg.targets);
    RunIsSafe(history, cfg.targets);
    if NothingArrivesLate(history, cfg.targets) {
      RunIsExact(history, cfg.targets, m);
    }
  }
}
