/** The live loop: one object holding the remembered plan, cycling against one exchange. */
module MarketMakerLoop {
  import opened Numbers
  import opened LadderMatching
  import opened MarketMaker
  import opened OrderPlacement
  import opened MarketMakerRun
  import opened MarketMakerSafety
  import opened CycleGuards

  method SelectCrossed(i: CycleInput, previous: Option<ActivePlan>, prepared: seq<Row>) returns (d: Decision)
    requires i.plan.mid != 0.0
    ensures d == ReplaceCrossed(i, previous, prepared)
  {
    var changes := ComputePlanOrderChanges(previous, i.plan, prepared);
    var ids := MatchOpenOrders(previous, i.open);
    if changes.None? || ids.None? {
      return ReplaceAll(i, Full, prepared, previous);
    }
    var threshold := EffectiveThresholdBps(i.cfg, i.plan);
    var changed := ChangedKeys(changes.value, threshold);
    if changed == {} {
      return Unchanged(previous.value, prepared);
    }
    if |changed| < |i.plan.orders| {
      var selected: seq<Row> := [];
      for n := 0 to |prepared|
        invariant selected == Select(prepared[..n], changed)
      {
        assert prepared[..n + 1][..n] == prepared[..n];
        if prepared[n].PlanKey() in changed {
          selected := selected + [prepared[n]];
        }
      }
      assert prepared[..|prepared|] == prepared;
      SelectedKeysAreMapped(previous.value, i.plan, prepared, i.open.value, changed);
      return Replace(Partial, changed, selected, IdsOf(selected, ids.value),
                     set k | k in ids.value && k !in changed :: ids.value[k], previous, prepared);
    }
    return ReplaceAll(i, Full, prepared, previous);
  }

  method DecideCycle(i: CycleInput) returns (d: Decision)
    requires i.WellFormed()
    ensures d == Decide(i)
  {
    var prepared := ComparisonOrders(i.plan.orders, i.prepared);
    var adopting := i.previous.None? && i.tracked != [];
    var validatedEarly := adopting && i.open.Some? && i.open.value != [];
    if !i.approved || (validatedEarly && !i.valid) {
      return Blocked;
    }
    var compared := if validatedEarly then prepared else i.plan.orders;
    var previous := if adopting then Adopt(i.plan, compared, i.open) else i.previous;
    var reprice := ComputeRepriceBps(previous, i.plan, compared);
    var reference := if i.previousMid.None? && previous.Some? then previous.value.mid else i.previousMid;
    var forced := i.force || (i.tracked != [] && |i.tracked| != |i.plan.orders|) || MovedTooFar(i.cfg, i.plan, reference);
    var selective := !forced && i.cfg.repriceThresholdBps > 0.0 && i.tracked != [];
    if selective && reprice.Some? && reprice.value < EffectiveThresholdBps(i.cfg, i.plan) {
      return Unchanged(previous.value, compared);
    }
    if !i.valid {
      return Blocked;
    }
    if selective {
      d := SelectCrossed(i, previous, prepared);
    } else {
      d := ReplaceAll(i, if forced then Full else Initial, prepared, previous);
    }
  }

  class Loop {
    const exchange: Exchange
    var plan: Option<ActivePlan>
    var mid: Option<real>

    constructor (exchange: Exchange)
      ensures this.exchange == exchange && plan == None && mid == None
    {
      this.exchange := exchange;
      plan, mid := None, None;
    }

    function State(): MakerState
      reads this, exchange
    {
      MakerState(exchange.open, plan, mid)
    }

    /** Starting a live run, also after a scheduled recovery, forgets the remembered plan and mid. */
    method StartLiveRun()
      modifies this
      ensures Step(old(State()), Forget, State())
    {
      plan, mid := None, None;
    }

    /** One live cycle is one step of the run relation, whatever the exchange does. */
    method RunCycle(e: CycleEnv, p: PlaceEnv) returns (ev: Event)
      requires EnvOk(State(), e) && Healthy(exchange.open)
      requires var d := Decide(InputOf(State(), e));
               d.Replace? ==>
                 && |p.newIds| == |d.selected| + 1 && FreshIds(p.newIds, exchange.open.Keys)
                 && (p.failAt.Some? ==> p.failAt.value < |d.selected|)
      modifies this, exchange
      ensures Step(old(State()), ev, State()) && EnvOf(ev) == Some(e)
      ensures !e.approved ==> State() == old(State())
      ensures !e.valid ==> exchange.open == old(exchange.open)
    {
      ghost var before := State();
      var i := InputOf(State(), e);
      var d := DecideCycle(i);
      match d {
        case Blocked =>
          ev := Cycle(e);
        case Unchanged(active, _) =>
          if active.mid.Some? {
            plan, mid := Some(active), active.mid;
          }
          ev := Cycle(e);
        case Replace(_, _, _, _, _, _, _) =>
          ev := PlaceReplacements(e, p, d);
      }
      RefusalChangesNothing(before, ev, State());
    }

    method PlaceReplacements(e: CycleEnv, p: PlaceEnv, d: Decision) returns (ev: Event)
      requires EnvOk(State(), e) && Healthy(exchange.open) && d.Replace? && d == Decide(InputOf(State(), e))
      requires |p.newIds| == |d.selected| + 1 && FreshIds(p.newIds, exchange.open.Keys)
      requires p.failAt.Some? ==> p.failAt.value < |d.selected|
      modifies this, exchange
      ensures Step(old(State()), ev, State()) && EnvOf(ev) == Some(e)
    {
      ghost var before := State();
      var x := PlacePlan(exchange, d.selected, d.cancels, false, d.retained, p);
      match x
      case CancelRetry(_) =>
        ev := RetryCycle(e, p.gone);
      case CreateFailed(_) =>
        plan, mid := None, None;
        ev := FailedCycle(e, exchange.open);
        FailedPlacementIsHealthy(before, e, d, p, exchange.open);
      case Placed(_, _) =>
        var active := ActivePlanAfterReprice(if d.mode == Partial then d.previous else None, e.plan, d.changed, d.compared);
        plan, mid := Some(active), Some(e.plan.mid);
        ev := PlacedCycle(e, p.newIds[..|d.selected|]);
        PlacedIsStep(before, e, d, p, State());
    }
  }

  lemma RefusalChangesNothing(s: MakerState, ev: Event, t: MakerState)
    requires Step(s, ev, t) && EnvOf(ev).Some?
    ensures !EnvOf(ev).value.approved ==> t == s
    ensures !EnvOf(ev).value.valid ==> t.open == s.open
  {
    if !EnvOf(ev).value.approved {
      RefusedCycleDoesNothing(s, ev, t);
    }
    if !EnvOf(ev).value.valid {
      InvalidCycleKeepsOrders(s, ev, t);
    }
  }

  lemma SelectedArePrepared(s: MakerState, e: CycleEnv)
    requires EnvOk(s, e) && Decide(InputOf(s, e)).Replace?
    ensures forall r :: r in Decide(InputOf(s, e)).selected ==> r.price > 0.0
  {
    var i := InputOf(s, e);
    TrackedMeansSnapshot(s, e);
    PreparedArePositive(e);
    if Decide(i).mode == Partial {
      PartialIsCrossed(i);
      CrossedMeans(i, PreviousOf(i), ComparisonOrders(e.plan.orders, e.prepared));
      SelectIs(Decide(i).compared, Decide(i).changed);
    } else {
      WholeMeans(i);
    }
  }

  lemma FailedPlacementIsHealthy(s: MakerState, e: CycleEnv, d: Decision, p: PlaceEnv, after: map<string, Live>)
    requires EnvOk(s, e) && d == Decide(InputOf(s, e)) && d.Replace? && Healthy(s.open)
    requires FreshIds(p.newIds, s.open.Keys)
    requires OnlyAdds(Confirmed(s.open, d.cancels, false, p), d.selected, p.newIds, after)
    ensures Healthy(after)
  {
    SelectedArePrepared(s, e);
  }

  lemma IsPlacedStep(s: MakerState, e: CycleEnv, d: Decision, ids: seq<string>, t: MakerState)
    requires EnvOk(s, e) && d == Decide(InputOf(s, e)) && d.Replace? && |ids| == |d.selected| && FreshIds(ids, s.open.Keys)
    requires d.cancels != [] ==> d.retained <= s.open.Keys
    requires t.open == Added(if d.cancels == [] then s.open else Kept(s.open, d.retained), d.selected, ids)
    requires t.plan == Some(ActivePlanAfter(if d.mode == Partial then d.previous else None, e.plan, d.changed, d.compared))
    requires t.mid == Some(e.plan.mid)
    ensures Step(s, PlacedCycle(e, ids), t)
  {
  }

  lemma FreshPrefix(ids: seq<string>, used: set<string>, n: nat)
    requires FreshIds(ids, used) && n <= |ids|
    ensures FreshIds(ids[..n], used)
  {
  }

  lemma PlacedIsStep(s: MakerState, e: CycleEnv, d: Decision, p: PlaceEnv, t: MakerState)
    requires EnvOk(s, e) && d == Decide(InputOf(s, e)) && d.Replace?
    requires |p.newIds| == |d.selected| + 1 && FreshIds(p.newIds, s.open.Keys)
    requires d.cancels != [] ==> (s.open - p.gone).Keys == d.retained
    requires t.open == Added(Confirmed(s.open, d.cancels, false, p), d.selected, p.newIds)
    requires t.plan == Some(ActivePlanAfter(if d.mode == Partial then d.previous else None, e.plan, d.changed, d.compared))
    requires t.mid == Some(e.plan.mid)
    ensures Step(s, PlacedCycle(e, p.newIds[..|d.selected|]), t)
  {
    AddedUsesPrefix(Confirmed(s.open, d.cancels, false, p), d.selected, p.newIds);
    FreshPrefix(p.newIds, s.open.Keys, |d.selected|);
    if d.cancels != [] {
      assert s.open - p.gone == Kept(s.open, d.retained);
    }
    IsPlacedStep(s, e, d, p.newIds[..|d.selected|], t);
  }
}
