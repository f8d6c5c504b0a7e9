/** Which orders a task tracks as open: what a read of the exchange puts there, and what may take them out
    again before the task is stopped or places its next slice. */
module TrackedOrders {
  import opened Numbers
  import opened FillAccounting
  import opened TaskMachine
  import opened TaskAccounting
  import opened StoppedTask

  predicate ListedOpen(s: Snapshot, id: string) {
    exists r :: r in s.openOrders && r.id == id
  }

  /** After a read the task tracks exactly those of its placed orders that the read lists as open. */
  lemma ReadTracksExactly(t: TaskState, s: Snapshot, cfg: TaskConfig, id: string)
    ensures id in RefreshState(t, s, cfg).open <==> id != "" && id in t.account.placed && ListedOpen(s, id)
  {
  }

  // ---- slices ----

  /** A step that places orders reads the exchange, and that read lists none of the task's orders as open. */
  lemma PlacingStepSawNoOpenOrder(t: TaskState, ev: TaskEvent, cfg: TaskConfig, id: string)
    requires Apply(t, ev, cfg).account.placed != t.account.placed && id != "" && id in t.account.placed
    ensures ev.RunDue? && ev.env.refresh.Some? && !ListedOpen(ev.env.refresh.value, id)
  {
    if !RunsSlice(t, ev, cfg) {
      OnlySlicesPlace(t, ev, cfg);
    } else {
      ReadTracksExactly(t, ev.env.refresh.value, cfg, id);
    }
  }

  /** And it may place: the task is due in an available runtime, neither finished, paused nor stopping, its
      earlier orders are all resolved, its target is not reached, the stop price is not met, and the next
      slice is due. */
  lemma PlacingStepWasAllowed(t: TaskState, ev: TaskEvent, cfg: TaskConfig)
    requires Apply(t, ev, cfg).account.placed != t.account.placed
    ensures ev.RunDue? && ev.due && ev.runtimeAvailable && ev.env.unresolved == Some(false) && !ev.env.mustWait && ev.env.slice.SliceDone?
    ensures t.status !in {Complete, Stopped, BelowMinOrderQuote, Paused, StopCancelPending}
    ensures cfg.hasStopPrice ==> ev.env.priceStop == Some(false)
    ensures ev.env.refresh.Some? && !ReachesTarget(RefreshState(t, ev.env.refresh.value, cfg).account, cfg.targets)
  {
    if !RunsSlice(t, ev, cfg) {
      OnlySlicesPlace(t, ev, cfg);
    }
  }

  // ---- how a tracked order is released ----

  /** Tracked orders are the task's own. */
  ghost predicate OwnsTracked(t: TaskState) {
    "" !in t.open && forall id :: id in t.open ==> id in t.account.placed
  }

  /** A read this step may act on does not show the order: of the activity, of the activity after expired
      orders were cancelled, or of the open orders after a cancel request. */
  predicate ReadMisses(t: TaskState, ev: TaskEvent, cfg: TaskConfig, id: string) {
    match ev
    case StopTask(cancel, c, _) => cancel && c.ReadOpen? && id !in c.ids
    case RunDue(due, available, e) =>
      && due && available
      && ((t.status != StopCancelPending && e.refresh.Some? && !ListedOpen(e.refresh.value, id))
          || (cfg.hasOrderTtl && e.secondRefresh.Some? && !ListedOpen(e.secondRefresh.value, id))
          || ((t.status == StopCancelPending || (cfg.hasStopPrice && e.priceStop == Some(true))) && e.confirmation.ReadOpen? && id !in e.confirmation.ids))
    case _ => false
  }

  /** The order is past its time to live, and the cycle that asked for its cancellation failed before it
      could read the exchange again. */
  predicate ExpiresUnread(ev: TaskEvent, cfg: TaskConfig, id: string) {
    ev.RunDue? && cfg.hasOrderTtl && id in ev.env.expired && !(ev.env.logged && ev.env.secondRefresh.Some?)
  }

  lemma {:induction false} TrackOwns(t: TaskState, ids: seq<string>)
    requires OwnsTracked(t)
    ensures OwnsTracked(Track(t, ids)) && t.open <= Track(t, ids).open
  {
    if ids != [] {
      TrackOwns(t, ids[..|ids| - 1]);
    }
  }

  lemma ReadOwns(t: TaskState, s: Snapshot, cfg: TaskConfig)
    ensures OwnsTracked(RefreshState(t, s, cfg)) && RefreshState(t, s, cfg).account.placed == t.account.placed
  {
  }

  lemma SliceOwns(t: TaskState, e: CycleEnv, cfg: TaskConfig)
    requires OwnsTracked(t)
    ensures OwnsTracked(RunSlice(t, e, cfg)) && t.open <= RunSlice(t, e, cfg).open
  {
    if e.slice.SliceDone? {
      TrackOwns(t.(status := StatusOf(e.slice.outcome),
                   startTriggered := t.startTriggered || (cfg.hasStartPrice && !e.slice.outcome.SliceWaitsForStart?)), e.slice.newIds);
    }
  }

  lemma HandlingOwns(t: TaskState, e: CycleEnv, cfg: TaskConfig)
    requires OwnsTracked(t)
    ensures OwnsTracked(HandleOpenOrders(t, e, cfg))
  {
    if e.secondRefresh.Some? {
      ReadOwns(t.(open := t.open - e.expired, status := Running), e.secondRefresh.value, cfg);
    }
  }

  lemma StoppingOwns(t: TaskState, e: CycleEnv, cfg: TaskConfig)
    requires OwnsTracked(t)
    ensures OwnsTracked(TaskMachine.RetryPendingStop(t, e)) && OwnsTracked(PriceStop(t, e, cfg))
  {
  }

  lemma ActingOwns(t: TaskState, e: CycleEnv, cfg: TaskConfig)
    requires OwnsTracked(t)
    ensures OwnsTracked(ActOnRead(t, e, cfg))
  {
    SliceOwns(t, e, cfg);
    HandlingOwns(t, e, cfg);
    StoppingOwns(t, e, cfg);
  }

  /** Every step keeps the tracked orders among the placed ones. */
  lemma StepOwns(t: TaskState, ev: TaskEvent, cfg: TaskConfig)
    requires OwnsTracked(t)
    ensures OwnsTracked(Apply(t, ev, cfg))
  {
    if ev.RunDue? {
      StoppingOwns(t, ev.env, cfg);
      if ev.env.refresh.Some? {
        ReadOwns(t, ev.env.refresh.value, cfg);
        ActingOwns(RefreshState(t, ev.env.refresh.value, cfg), ev.env, cfg);
      }
    }
  }

  lemma StoppingReleases(t: TaskState, e: CycleEnv, cfg: TaskConfig, id: string)
    requires id in t.open
    ensures id in TaskMachine.RetryPendingStop(t, e).open || (e.confirmation.ReadOpen? && id !in e.confirmation.ids)
    ensures id in PriceStop(t, e, cfg).open || (e.confirmation.ReadOpen? && id !in e.confirmation.ids)
  {
  }

  lemma HandlingReleases(t: TaskState, e: CycleEnv, cfg: TaskConfig, id: string)
    requires OwnsTracked(t) && id in t.open
    ensures || id in HandleOpenOrders(t, e, cfg).open
            || (cfg.hasOrderTtl && id in e.expired && !(e.logged && e.secondRefresh.Some?))
            || (cfg.hasOrderTtl && e.secondRefresh.Some? && !ListedOpen(e.secondRefresh.value, id))
  {
    if e.secondRefresh.Some? {
      ReadTracksExactly(t.(open := t.open - e.expired, status := Running), e.secondRefresh.value, cfg, id);
    }
  }

  lemma ActingReleases(t: TaskState, e: CycleEnv, cfg: TaskConfig, id: string)
    requires OwnsTracked(t) && id in t.open
    ensures || id in ActOnRead(t, e, cfg).open
            || (cfg.hasOrderTtl && id in e.expired && !(e.logged && e.secondRefresh.Some?))
            || (cfg.hasOrderTtl && e.secondRefresh.Some? && !ListedOpen(e.secondRefresh.value, id))
            || (cfg.hasStopPrice && e.priceStop == Some(true) && e.confirmation.ReadOpen? && id !in e.confirmation.ids)
  {
    StoppingReleases(t, e, cfg, id);
    HandlingReleases(t, e, cfg, id);
    SliceOwns(t, e, cfg);
  }

  /** A tracked order leaves the tracked set only because a read did not show it, or because it expired and
      the exchange was not read again. */
  lemma ReleasedOnlyBy(t: TaskState, ev: TaskEvent, cfg: TaskConfig, id: string)
    requires OwnsTracked(t) && id in t.open && id !in Apply(t, ev, cfg).open
    ensures ReadMisses(t, ev, cfg, id) || ExpiresUnread(ev, cfg, id)
  {
    if ev.RunDue? {
      StoppingReleases(t, ev.env, cfg, id);
      if ev.env.refresh.Some? {
        ReadOwns(t, ev.env.refresh.value, cfg);
        ReadTracksExactly(t, ev.env.refresh.value, cfg, id);
        if id in RefreshState(t, ev.env.refresh.value, cfg).open {
          ActingReleases(RefreshState(t, ev.env.refresh.value, cfg), ev.env, cfg, id);
        }
      }
    }
  }

  /** A step that reads its activity tracks each of the task's orders it lists as open, unless the same step
      releases it. */
  lemma ReadingTracks(t: TaskState, ev: TaskEvent, cfg: TaskConfig, id: string)
    requires ReadsActivity(t, ev) && ListedOpen(ev.env.refresh.value, id) && id != "" && id in t.account.placed
    ensures id in Apply(t, ev, cfg).open || ReadMisses(t, ev, cfg, id) || ExpiresUnread(ev, cfg, id)
  {
    ReadOwns(t, ev.env.refresh.value, cfg);
    ReadTracksExactly(t, ev.env.refresh.value, cfg, id);
    ActingReleases(RefreshState(t, ev.env.refresh.value, cfg), ev.env, cfg, id);
  }

  // ---- runs ----

  lemma {:induction false} OwnsAt(t: TaskState, events: seq<TaskEvent>, cfg: TaskConfig, k: nat)
    requires OwnsTracked(t) && k <= |events|
    ensures OwnsTracked(States(t, events, cfg)[k])
  {
    if k > 0 {
      OwnsAt(t, events, cfg, k - 1);
      StatesStep(t, events, cfg, k - 1);
      StepOwns(States(t, events, cfg)[k - 1], events[k - 1], cfg);
    } else if events != [] {
      StatesStep(t, events, cfg, 0);
    }
  }

  ghost predicate ReleasedAt(t: TaskState, events: seq<TaskEvent>, cfg: TaskConfig, k: nat, id: string)
    requires k < |events|
  {
    ReadMisses(States(t, events, cfg)[k], events[k], cfg, id) || ExpiresUnread(events[k], cfg, id)
  }

  /** From a step that read an order of the task as open, the order is tracked until a step releases it. */
  lemma {:induction false} TrackedUntilReleased(t: TaskState, events: seq<TaskEvent>, cfg: TaskConfig, k: nat, n: nat, id: string)
    requires OwnsTracked(t) && k < n <= |events| && id != "" && id in States(t, events, cfg)[k].account.placed
    requires ReadsActivity(States(t, events, cfg)[k], events[k]) && ListedOpen(events[k].env.refresh.value, id)
    ensures id in States(t, events, cfg)[n].open || exists j :: k <= j < n && ReleasedAt(t, events, cfg, j, id)
  {
    StatesStep(t, events, cfg, n - 1);
    if n == k + 1 {
      ReadingTracks(States(t, events, cfg)[k], events[k], cfg, id);
      assert id in States(t, events, cfg)[n].open || ReleasedAt(t, events, cfg, k, id);
    } else {
      TrackedUntilReleased(t, events, cfg, k, n - 1, id);
      OwnsAt(t, events, cfg, n - 1);
      if id in States(t, events, cfg)[n - 1].open && id !in States(t, events, cfg)[n].open {
        ReleasedOnlyBy(States(t, events, cfg)[n - 1], events[n - 1], cfg, id);
        assert ReleasedAt(t, events, cfg, n - 1, id);
      }
    }
  }

  /** A stop that asks for cancellation: a step reaches `stopped` and did not decline to cancel. */
  ghost predicate StopsWithCancellation(t: TaskState, events: seq<TaskEvent>, cfg: TaskConfig, n: nat)
    requires n < |events|
  {
    && States(t, events, cfg)[n].status != Stopped && States(t, events, cfg)[n + 1].status == Stopped
    && (events[n].StopTask? ==> events[n].cancelOpenOrders)
  }

  /** Stop safety from the exchange's side: whatever order of the task some cycle read as open, a later stop
      with cancellation reaches `stopped` only after a read that no longer showed it, or after it expired
      and could not be read again. Without a time to live, always after such a read. */
  lemma StoppedOnlyAfterRelease(t: TaskState, events: seq<TaskEvent>, cfg: TaskConfig, k: nat, n: nat, id: string)
    requires OwnsTracked(t) && k < n < |events| && id != "" && id in States(t, events, cfg)[k].account.placed
    requires ReadsActivity(States(t, events, cfg)[k], events[k]) && ListedOpen(events[k].env.refresh.value, id)
    requires StopsWithCancellation(t, events, cfg, n)
    ensures exists j :: k <= j <= n && ReleasedAt(t, events, cfg, j, id)
    ensures !cfg.hasOrderTtl ==> exists j :: k <= j <= n && ReadMisses(States(t, events, cfg)[j], events[j], cfg, id)
  {
    TrackedUntilReleased(t, events, cfg, k, n + 1, id);
    StatesStep(t, events, cfg, n);
    StoppedLeavesNothingOpen(States(t, events, cfg)[n], events[n], cfg);
    var j :| k <= j <= n && ReleasedAt(t, events, cfg, j, id);
    assert !cfg.hasOrderTtl ==> ReadMisses(States(t, events, cfg)[j], events[j], cfg, id);
  }

  /** The second case is real: an order past its time to live whose cancellation could not be confirmed is
      dropped unread, and a stop with cancellation then ends without asking for it again. */
  lemma ExpiredOrderIsStoppedUnread(t: TaskState, ev: TaskEvent, cfg: TaskConfig, c: Confirmation)
    requires t.status == WaitingForFill && t.account.placed == ["a"] && cfg.hasOrderTtl && !cfg.hasStopPrice
    requires ReadsActivity(t, ev) && ListedOpen(ev.env.refresh.value, "a") && "a" in ev.env.expired
    requires !ev.env.confirmation.CancelRaised? && ev.env.logged && ev.env.secondRefresh.None?
    requires !IsComplete(RefreshState(t, ev.env.refresh.value, cfg).account, cfg)
    ensures var failed := Apply(t, ev, cfg);
            && failed.status == Failing && failed.open == {} && !ReadMisses(t, ev, cfg, "a")
            && Apply(failed, StopTask(true, c, true), cfg).status == Stopped
  {
    ReadTracksExactly(t, ev.env.refresh.value, cfg, "a");
    var read := RefreshState(t, ev.env.refresh.value, cfg);
    assert read.open == {"a"};
    assert "a" in read.open * ev.env.expired;
  }
}
