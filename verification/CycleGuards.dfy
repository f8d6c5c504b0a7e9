/** What lets a live cycle act: the risk gate, validation, the reasons to rebuild everything, and the
    price and quote changes a level may make without being replaced. */
module CycleGuards {
  import opened Numbers
  import opened StableSort
  import opened LadderMatching
  import opened MarketMaker
  import opened OrderPlacement
  import opened MarketMakerRun
  import opened MarketMakerSafety
  import opened Adoption

  /** What one event's cycle saw, if the event is a cycle. */
  function EnvOf(ev: Event): Option<CycleEnv> {
    match ev
    case Cycle(e) => Some(e)
    case PlacedCycle(e, _) => Some(e)
    case RetryCycle(e, _) => Some(e)
    case FailedCycle(e, _) => Some(e)
    case _ => None
  }

  // ---- the risk gate and validation ----

  /** A cycle the risk gate refuses cancels nothing, creates nothing and remembers nothing. */
  lemma RefusedCycleDoesNothing(s: MakerState, ev: Event, t: MakerState)
    requires Step(s, ev, t) && EnvOf(ev).Some? && !EnvOf(ev).value.approved
    ensures ev.Cycle? && t == s
  {
  }

  lemma PlacedIsApproved(s: MakerState, e: CycleEnv, ids: seq<string>, t: MakerState)
    requires Step(s, PlacedCycle(e, ids), t)
    ensures e.approved && e.valid
  {
  }

  /** In any run, so does the loop. */
  lemma RefusedCyclesChangeNothing(states: seq<MakerState>, events: seq<Event>, n: nat)
    requires IsRun(states, events) && n < |events| && EnvOf(events[n]).Some? && !EnvOf(events[n]).value.approved
    ensures events[n].Cycle? && states[n + 1] == states[n]
  {
    RefusedCycleDoesNothing(states[n], events[n], states[n + 1]);
  }

  /** A cycle whose ladder fails validation leaves the open orders alone. */
  lemma InvalidCycleKeepsOrders(s: MakerState, ev: Event, t: MakerState)
    requires Step(s, ev, t) && EnvOf(ev).Some? && !EnvOf(ev).value.valid
    ensures ev.Cycle? && t.open == s.open
  {
  }

  /** If the same cycle would have placed orders with a valid ladder, it changes nothing at all. */
  lemma InvalidReplacementDoesNothing(s: MakerState, e: CycleEnv, newIds: seq<string>, placed: MakerState, t: MakerState)
    requires e.valid && Step(s, PlacedCycle(e, newIds), placed) && Step(s, Cycle(e.(valid := false)), t)
    ensures t == s
  {
  }

  // ---- when everything is replaced ----

  /** The last known mid: the one remembered by the loop, else the plan's. */
  function RememberedMid(s: MakerState): Option<real> {
    if s.mid.None? && s.plan.Some? then s.plan.value.mid else s.mid
  }

  /** The mid moved by at least the full-reprice threshold, in basis points of the new mid. */
  predicate MovedFrom(e: CycleEnv, mid: Option<real>)
    requires e.plan.mid != 0.0
  {
    mid.Some? && mid.value > 0.0 && e.cfg.fullRepriceThresholdBps > 0.0
    && Abs(e.plan.mid - mid.value) / e.plan.mid * 10000.0 >= e.cfg.fullRepriceThresholdBps
  }

  /** Nothing is open, a rebuild was asked for, orders are missing, repricing is off, or mid moved too far. */
  ghost predicate MustRebuild(s: MakerState, e: CycleEnv)
    requires e.plan.mid != 0.0
  {
    || s.open.Keys == {} || e.otherForceReason
    || |s.open| != |e.plan.orders| || (s.plan.Some? && |s.open| != |s.plan.value.orders|)
    || e.cfg.repriceThresholdBps <= 0.0
    || MovedFrom(e, RememberedMid(s))
  }

  lemma WholeWithoutComparison(i: CycleInput)
    requires i.WellFormed() && i.approved && i.valid
    requires i.force || i.tracked == [] || |i.tracked| != |i.plan.orders| || i.cfg.repriceThresholdBps <= 0.0
    ensures Decide(i).Replace? && Decide(i).mode != Partial
  {
  }

  lemma WholeAfterMove(i: CycleInput)
    requires i.WellFormed() && i.approved && i.valid && i.previous.Some?
    requires MovedTooFar(i.cfg, i.plan, if i.previousMid.None? then i.previous.value.mid else i.previousMid)
    ensures Decide(i).Replace? && Decide(i).mode != Partial
  {
  }

  lemma WholeAfterAdoptedMove(i: CycleInput)
    requires i.WellFormed() && i.approved && i.valid && i.previous.None?
    requires MovedTooFar(i.cfg, i.plan, i.previousMid)
    ensures Decide(i).Replace? && Decide(i).mode != Partial
  {
  }

  lemma RebuildIsWhole(s: MakerState, e: CycleEnv)
    requires EnvOk(s, e) && e.approved && e.valid && MustRebuild(s, e)
    ensures Decide(InputOf(s, e)).Replace? && Decide(InputOf(s, e)).mode != Partial
  {
    var i := InputOf(s, e);
    TrackedMeansSnapshot(s, e);
    SnapshotCount(e.snapshot, s.open);
    if i.force || i.tracked == [] || |i.tracked| != |i.plan.orders| || i.cfg.repriceThresholdBps <= 0.0 {
      WholeWithoutComparison(i);
    } else if i.previous.Some? {
      WholeAfterMove(i);
    } else {
      WholeAfterAdoptedMove(i);
    }
  }

  /** The book holds exactly the given ladder under the given ids. */
  ghost predicate HoldsExactly(open: map<string, Live>, rows: seq<Row>, prepared: seq<Prepared>, ids: seq<string>) {
    && |ids| == |rows| == |prepared| && open.Keys == (set id | id in ids)
    && forall n :: 0 <= n < |ids| ==> ids[n] in open && open[ids[n]] == Live(rows[n].side, prepared[n].price)
  }

  lemma NewLadderIs(orders: seq<Row>, prepared: seq<Prepared>, ids: seq<string>)
    requires |orders| == |prepared| == |ids| && FreshIds(ids, {})
    ensures HoldsExactly(Added(map[], ComparisonOrders(orders, prepared), ids), orders, prepared, ids)
  {
    AddedIs(map[], ComparisonOrders(orders, prepared), ids);
    assert forall n :: 0 <= n < |ids| ==> ids[n] in ids;
  }

  lemma WholePlacementHolds(s: MakerState, e: CycleEnv, ids: seq<string>, t: MakerState)
    requires EnvOk(s, e) && Step(s, PlacedCycle(e, ids), t) && Decide(InputOf(s, e)).mode != Partial
    ensures HoldsExactly(t.open, e.plan.orders, e.prepared, ids) && FreshIds(ids, s.open.Keys)
  {
    WholeStepMeans(s, e, ids, t);
    FreshStays(ids, s.open.Keys, {});
    NewLadderIs(e.plan.orders, e.prepared, ids);
  }

  /** An approved, valid cycle that must rebuild never stays idle. */
  lemma RebuildIsNeverIdle(s: MakerState, ev: Event, t: MakerState)
    requires Step(s, ev, t) && EnvOf(ev).Some?
    requires var e := EnvOf(ev).value;
             e.approved && e.valid && e.plan.mid > 0.0 && MustRebuild(s, e)
    ensures !ev.Cycle?
  {
    RebuildIsWhole(s, EnvOf(ev).value);
  }

  /** Once placed, the book holds exactly the new ladder: one new order per plan row at its prepared
      price, and no order from before. */
  lemma RebuildReplacesEverything(s: MakerState, e: CycleEnv, ids: seq<string>, t: MakerState)
    requires EnvOk(s, e) && Step(s, PlacedCycle(e, ids), t) && MustRebuild(s, e)
    ensures HoldsExactly(t.open, e.plan.orders, e.prepared, ids) && t.open.Keys !! s.open.Keys
  {
    PlacedIsApproved(s, e, ids, t);
    RebuildIsWhole(s, e);
    WholePlacementHolds(s, e, ids, t);
    FreshIsDisjoint(ids, s.open.Keys);
  }

  lemma FreshIsDisjoint(ids: seq<string>, used: set<string>)
    requires FreshIds(ids, used)
    ensures (set id | id in ids) !! used
  {
  }

  // ---- when a level is replaced ----

  /** A remembered row may stay for a new price and quote: the quote differs by at most a tenth of a
      percent of the larger one and the price by less than the effective threshold of mid. */
  predicate MayStay(p: Row, price: real, quote: real, e: CycleEnv)
    requires e.plan.mid != 0.0
  {
    && Abs(quote - p.quote) <= 0.001 * Max(Max(Abs(p.quote), Abs(quote)), 0.000000000001)
    && Abs(price - p.price) / e.plan.mid * 10000.0 < EffectiveThresholdBps(e.cfg, e.plan)
  }

  ghost predicate RowStays(previous: seq<Row>, row: Row, e: CycleEnv)
    requires e.plan.mid != 0.0
  {
    row.PlanKey() in PlanKeys(previous) && MayStay(RowOf(previous, row.PlanKey()), row.price, row.quote, e)
  }

  lemma IndexedRow(previous: seq<Row>, k: Key)
    requires DistinctKeys(previous) && k in PlanKeys(previous)
    ensures k in ByKey(previous) && ByKey(previous)[k] == RowOf(previous, k)
  {
    ByKeyIs(previous);
    RowIsUnique(previous, ByKey(previous)[k], RowOf(previous, k));
  }

  lemma ChangedMeansCrossed(previous: map<Key, Row>, compared: seq<Row>, mid: real, threshold: real, r: Row)
    requires mid != 0.0 && Changes(previous, compared, mid).Some? && DistinctKeys(compared) && r in compared
    ensures r.PlanKey() in previous
    ensures var p := previous[r.PlanKey()];
            r.PlanKey() in ChangedKeys(Changes(previous, compared, mid).value, threshold)
            <==> QuoteChanged(p.quote, r.quote) || PriceChangeBps(p.price, r.price, mid) >= threshold
  {
    var c := Changes(previous, compared, mid).value;
    ChangesAre(previous, compared, mid);
    var n :| 0 <= n < |compared| && compared[n] == r;
    if Crossed(c[n], threshold) {
      assert c[n] in c;
    }
  }

  /** A level is selected for replacement exactly when its row may not stay. */
  lemma SelectedExactlyWhen(previous: seq<Row>, compared: seq<Row>, e: CycleEnv, r: Row)
    requires e.plan.mid > 0.0 && DistinctKeys(previous) && DistinctKeys(compared) && r in compared
    requires Changes(ByKey(previous), compared, e.plan.mid).Some?
    ensures r.PlanKey() in PlanKeys(previous)
    ensures r.PlanKey() in ChangedKeys(Changes(ByKey(previous), compared, e.plan.mid).value, EffectiveThresholdBps(e.cfg, e.plan))
            <==> !RowStays(previous, r, e)
  {
    ByKeyIs(previous);
    ChangedMeansCrossed(ByKey(previous), compared, e.plan.mid, EffectiveThresholdBps(e.cfg, e.plan), r);
    IndexedRow(previous, r.PlanKey());
  }

  // ---- cycles that place ----

  lemma KeepingMeansPartial(s: MakerState, e: CycleEnv, ids: seq<string>, t: MakerState, id: string)
    requires EnvOk(s, e) && Step(s, PlacedCycle(e, ids), t) && id in s.open && id in t.open
    ensures Decide(InputOf(s, e)).Replace? && Decide(InputOf(s, e)).mode == Partial
  {
    if Decide(InputOf(s, e)).mode != Partial {
      WholePlacementHolds(s, e, ids, t);
    }
  }

  lemma KeptIsRetained(open: map<string, Live>, assign: map<Key, string>, changed: set<Key>, retained: set<string>, selected: seq<Row>, ids: seq<string>, k: Key)
    requires Injective(assign) && assign.Values == open.Keys && k in assign && |ids| == |selected| && FreshIds(ids, open.Keys)
    requires retained == set j | j in assign && j !in changed :: assign[j]
    ensures assign[k] in Added(Kept(open, retained), selected, ids) <==> k !in changed
  {
    assert assign[k] in assign.Values;
    FreshStays(ids, open.Keys, Kept(open, retained).Keys);
    AddedIs(Kept(open, retained), selected, ids);
  }

  lemma ComparedWithRemembered(s: MakerState, e: CycleEnv)
    requires EnvOk(s, e) && Decide(InputOf(s, e)).Replace? && Decide(InputOf(s, e)).mode == Partial && s.plan.Some?
    ensures PreviousOf(InputOf(s, e)) == s.plan
  {
    TrackedMeansSnapshot(s, e);
    PartialIsCrossed(InputOf(s, e));
    ComparedPlanIs(s, e);
  }

  /** Each compared row's old order survives exactly when its remembered row may stay. */
  ghost predicate KeepsStaying(after: map<string, Live>, previous: seq<Row>, compared: seq<Row>, owner: map<Key, string>, e: CycleEnv)
    requires e.plan.mid != 0.0
  {
    forall r :: r in compared ==> r.PlanKey() in owner && (owner[r.PlanKey()] in after <==> RowStays(previous, r, e))
  }

  lemma PartialKeepsStaying(
      open: map<string, Live>, previous: seq<Row>, compared: seq<Row>, owner: map<Key, string>, e: CycleEnv,
      changed: set<Key>, retained: set<string>, selected: seq<Row>, ids: seq<string>)
    requires e.plan.mid > 0.0 && Agree(open, previous, owner) && DistinctKeys(compared) && Changes(ByKey(previous), compared, e.plan.mid).Some?
    requires changed == ChangedKeys(Changes(ByKey(previous), compared, e.plan.mid).value, EffectiveThresholdBps(e.cfg, e.plan))
    requires retained == (set k | k in owner && k !in changed :: owner[k]) && |ids| == |selected| && FreshIds(ids, open.Keys)
    ensures KeepsStaying(Added(Kept(open, retained), selected, ids), previous, compared, owner, e)
  {
    forall r | r in compared
      ensures r.PlanKey() in owner && (owner[r.PlanKey()] in Added(Kept(open, retained), selected, ids) <==> RowStays(previous, r, e))
    {
      SelectedExactlyWhen(previous, compared, e, r);
      KeptIsRetained(open, owner, changed, retained, selected, ids, r.PlanKey());
    }
  }

  lemma PartialChanges(previous: ActivePlan, plan: Plan, compared: seq<Row>)
    requires plan.mid > 0.0 && PlanOrderChanges(Some(previous), plan, compared).Some?
    ensures PlanOrderChanges(Some(previous), plan, compared) == Changes(ByKey(previous.orders), compared, plan.mid)
  {
  }

  /** What a partial cycle did, in terms of the remembered plan and the true owners. */
  lemma PartialOutcome(s: MakerState, e: CycleEnv, ids: seq<string>, t: MakerState) returns (owner: map<Key, string>)
    requires Invariant(s) && EnvOk(s, e) && Step(s, PlacedCycle(e, ids), t) && s.plan.Some?
    requires Decide(InputOf(s, e)).Replace? && Decide(InputOf(s, e)).mode == Partial
    ensures var d, compared := Decide(InputOf(s, e)), ComparisonOrders(e.plan.orders, e.prepared);
            && Agree(s.open, s.plan.value.orders, owner) && PlanOrderChanges(s.plan, e.plan, compared).Some?
            && d.changed == ChangedKeys(PlanOrderChanges(s.plan, e.plan, compared).value, EffectiveThresholdBps(e.cfg, e.plan))
            && d.retained == (set k | k in owner && k !in d.changed :: owner[k])
            && |ids| == |d.selected| && FreshIds(ids, s.open.Keys) && t.open == Added(Kept(s.open, d.retained), d.selected, ids)
  {
    ComparedWithRemembered(s, e);
    owner := PartialData(s, e);
    PartialSelects(s, e, owner);
    PartialCancelsSomething(s, e);
    PartialStepMeans(s, e, ids, t);
  }

  /** Which orders a cycle that keeps any order keeps: exactly those of the levels whose remembered row may
      stay for the new price and quote. */
  lemma KeptExactlyWhen(s: MakerState, e: CycleEnv, ids: seq<string>, t: MakerState, id: string) returns (owner: map<Key, string>)
    requires Invariant(s) && EnvOk(s, e) && Step(s, PlacedCycle(e, ids), t) && s.plan.Some? && id in s.open && id in t.open
    ensures Agree(s.open, s.plan.value.orders, owner)
    ensures KeepsStaying(t.open, s.plan.value.orders, ComparisonOrders(e.plan.orders, e.prepared), owner, e)
  {
    KeepingMeansPartial(s, e, ids, t, id);
    owner := PartialOutcome(s, e, ids, t);
    var d := Decide(InputOf(s, e));
    ComparisonKeepsKeys(e.plan.orders, e.prepared);
    PartialChanges(s.plan.value, e.plan, ComparisonOrders(e.plan.orders, e.prepared));
    PartialKeepsStaying(s.open, s.plan.value.orders, ComparisonOrders(e.plan.orders, e.prepared), owner, e, d.changed, d.retained, d.selected, ids);
  }

  // ---- cycles that place nothing ----

  ghost predicate AllStay(previous: seq<Row>, rows: seq<Row>, e: CycleEnv)
    requires e.plan.mid != 0.0
  {
    forall r :: r in rows ==> RowStays(previous, r, e)
  }

  lemma {:induction false} WorstChangeMeansSameQuotes(previous: map<Key, Row>, compared: seq<Row>, mid: real, r: Row)
    requires mid != 0.0 && WorstChange(previous, compared, mid).Some? && r in compared
    ensures r.PlanKey() in previous && !QuoteChanged(previous[r.PlanKey()].quote, r.quote)
  {
    var n := |compared| - 1;
    if r != compared[n] {
      assert compared == compared[..n] + [compared[n]];
      WorstChangeMeansSameQuotes(previous, compared[..n], mid, r);
    }
  }

  lemma QuietRowsStay(previous: ActivePlan, i: CycleInput, compared: seq<Row>, e: CycleEnv)
    requires e.plan.mid > 0.0 && i.plan == e.plan && i.cfg == e.cfg && DistinctKeys(previous.orders) && DistinctKeys(compared)
    requires QuietByReprice(i, previous, compared) || QuietByLevel(i, previous, compared)
    ensures AllStay(previous.orders, compared, e)
  {
    ByKeyIs(previous.orders);
    forall r | r in compared
      ensures RowStays(previous.orders, r, e)
    {
      if QuietByLevel(i, previous, compared) {
        SelectedExactlyWhen(previous.orders, compared, e, r);
      } else {
        WorstChangeBounds(ByKey(previous.orders), compared, e.plan.mid, r);
        WorstChangeMeansSameQuotes(ByKey(previous.orders), compared, e.plan.mid, r);
        IndexedRow(previous.orders, r.PlanKey());
      }
    }
  }

  lemma AcceptedIsNotBlocked(i: CycleInput)
    requires i.WellFormed() && i.approved && i.valid
    ensures !Decide(i).Blocked?
  {
  }

  lemma IdleMeansNotReplaced(s: MakerState, e: CycleEnv, t: MakerState)
    requires EnvOk(s, e) && Step(s, Cycle(e), t)
    ensures !Decide(InputOf(s, e)).Replace?
  {
  }

  lemma IdleMeansUnchanged(s: MakerState, e: CycleEnv, t: MakerState)
    requires EnvOk(s, e) && Step(s, Cycle(e), t) && e.approved && e.valid
    ensures Decide(InputOf(s, e)).Unchanged?
  {
    TrackedMeansSnapshot(s, e);
    AcceptedIsNotBlocked(InputOf(s, e));
    IdleMeansNotReplaced(s, e, t);
  }

  /** An approved, valid cycle that does nothing found that every remembered row may stay, either for the
      planned rows or for the prepared ones. */
  lemma IdleCycleFoundAllStay(s: MakerState, e: CycleEnv, t: MakerState)
    requires Invariant(s) && EnvOk(s, e) && Step(s, Cycle(e), t) && e.approved && e.valid && s.plan.Some?
    ensures AllStay(s.plan.value.orders, e.plan.orders, e) || AllStay(s.plan.value.orders, ComparisonOrders(e.plan.orders, e.prepared), e)
  {
    var i, d := InputOf(s, e), Decide(InputOf(s, e));
    IdleMeansUnchanged(s, e, t);
    TrackedMeansSnapshot(s, e);
    UnchangedMeans(i);
    ComparedPlanIs(s, e);
    ComparisonKeepsKeys(e.plan.orders, e.prepared);
    QuietRowsStay(s.plan.value, i, d.compared, e);
  }

  lemma {:induction false} ComparableRowsHaveChanges(previous: map<Key, Row>, compared: seq<Row>, mid: real)
    requires mid != 0.0 && forall r :: r in compared ==> r.PlanKey() in previous
    ensures Changes(previous, compared, mid).Some?
  {
    if compared != [] {
      ComparableRowsHaveChanges(previous, compared[..|compared| - 1], mid);
    }
  }

  lemma StayingRowsCrossNothing(previous: seq<Row>, compared: seq<Row>, e: CycleEnv)
    requires e.plan.mid > 0.0 && DistinctKeys(previous) && DistinctKeys(compared) && AllStay(previous, compared, e)
    ensures Changes(ByKey(previous), compared, e.plan.mid).Some?
    ensures ChangedKeys(Changes(ByKey(previous), compared, e.plan.mid).value, EffectiveThresholdBps(e.cfg, e.plan)) == {}
  {
    ByKeyIs(previous);
    forall r | r in compared
      ensures r.PlanKey() in ByKey(previous)
    {
      assert RowStays(previous, r, e);
    }
    ComparableRowsHaveChanges(ByKey(previous), compared, e.plan.mid);
    ChangesAre(ByKey(previous), compared, e.plan.mid);
    forall r | r in compared
      ensures r.PlanKey() !in ChangedKeys(Changes(ByKey(previous), compared, e.plan.mid).value, EffectiveThresholdBps(e.cfg, e.plan))
    {
      SelectedExactlyWhen(previous, compared, e, r);
    }
  }

  /** The cycle may go on to compare levels with the remembered plan. */
  ghost predicate Comparing(i: CycleInput, previous: ActivePlan) {
    && i.WellFormed() && i.approved && i.valid && !i.force && i.previous == Some(previous)
    && i.tracked != [] && |i.tracked| == |i.plan.orders| && i.cfg.repriceThresholdBps > 0.0
    && !MovedTooFar(i.cfg, i.plan, if i.previousMid.None? then previous.mid else i.previousMid)
  }

  lemma NotRebuiltIsComparing(s: MakerState, e: CycleEnv)
    requires EnvOk(s, e) && s.plan.Some? && e.approved && e.valid && !MustRebuild(s, e)
    ensures Comparing(InputOf(s, e), s.plan.value)
  {
    SnapshotCount(e.snapshot, s.open);
  }

  lemma QuietInputIsUnchanged(i: CycleInput, previous: ActivePlan)
    requires Comparing(i, previous) && OpenOrderIds(Some(previous), i.open).Some?
    requires QuietByLevel(i, previous, ComparisonOrders(i.plan.orders, i.prepared))
    ensures Decide(i).Unchanged?
  {
  }

  lemma StayingPlanIsQuiet(i: CycleInput, previous: ActivePlan, compared: seq<Row>, e: CycleEnv)
    requires e.plan.mid > 0.0 && i.plan == e.plan && i.cfg == e.cfg && DistinctKeys(previous.orders) && DistinctKeys(compared)
    requires |previous.orders| == |compared| && AllStay(previous.orders, compared, e)
    ensures QuietByLevel(i, previous, compared)
  {
    ByKeyIs(previous.orders);
    CountKeys(previous.orders);
    StayingRowsCrossNothing(previous.orders, compared, e);
  }

  lemma RememberedIsMatched(s: MakerState, e: CycleEnv)
    requires Invariant(s) && EnvOk(s, e) && s.plan.Some? && !MustRebuild(s, e)
    ensures !InputOf(s, e).force && OpenOrderIds(s.plan, Some(e.snapshot)).Some?
  {
    SnapshotCount(e.snapshot, s.open);
    ComparedPlanIs(s, e);
    var _ := ComparedPlanAgrees(s, e);
  }

  lemma StayingInputIsUnchanged(i: CycleInput, previous: ActivePlan, e: CycleEnv)
    requires Comparing(i, previous) && OpenOrderIds(Some(previous), i.open).Some? && i.plan == e.plan && i.cfg == e.cfg && i.prepared == e.prepared
    requires DistinctKeys(previous.orders) && DistinctKeys(ComparisonOrders(e.plan.orders, e.prepared)) && |previous.orders| == |e.plan.orders|
    requires AllStay(previous.orders, ComparisonOrders(e.plan.orders, e.prepared), e)
    ensures Decide(i).Unchanged?
  {
    StayingPlanIsQuiet(i, previous, ComparisonOrders(e.plan.orders, e.prepared), e);
    QuietInputIsUnchanged(i, previous);
  }

  lemma StayingLadderIsUnchanged(s: MakerState, e: CycleEnv)
    requires Invariant(s) && EnvOk(s, e) && s.plan.Some? && e.approved && e.valid && !MustRebuild(s, e)
    requires AllStay(s.plan.value.orders, ComparisonOrders(e.plan.orders, e.prepared), e)
    ensures Decide(InputOf(s, e)).Unchanged?
  {
    RememberedIsMatched(s, e);
    TrackedMeansSnapshot(s, e);
    ComparisonKeepsKeys(e.plan.orders, e.prepared);
    RememberedKeysAreDistinct(s);
    NotRebuiltIsComparing(s, e);
    StayingInputIsUnchanged(InputOf(s, e), s.plan.value, e);
  }

  lemma RememberedKeysAreDistinct(s: MakerState)
    requires Invariant(s) && s.plan.Some?
    ensures DistinctKeys(s.plan.value.orders)
  {
  }

  /** No needless churn: when nothing asks for a rebuild and every remembered row may stay for its prepared
      row, an approved, valid cycle does nothing on the exchange. */
  lemma StayingLadderIsLeftAlone(s: MakerState, ev: Event, t: MakerState)
    requires Invariant(s) && Step(s, ev, t) && EnvOf(ev).Some? && s.plan.Some?
    requires var e := EnvOf(ev).value;
             && e.approved && e.valid && EnvOk(s, e) && !MustRebuild(s, e)
             && AllStay(s.plan.value.orders, ComparisonOrders(e.plan.orders, e.prepared), e)
    ensures ev.Cycle? && t.open == s.open
  {
    StayingLadderIsUnchanged(s, EnvOf(ev).value);
    IdleIsTheOnlyStep(s, ev, t);
  }

  lemma IdleIsTheOnlyStep(s: MakerState, ev: Event, t: MakerState)
    requires Step(s, ev, t) && EnvOf(ev).Some? && EnvOk(s, EnvOf(ev).value) && Decide(InputOf(s, EnvOf(ev).value)).Unchanged?
    ensures ev.Cycle? && t.open == s.open
  {
  }

  // ---- the width of the band ----

  lemma FractionOfSpread(spread: real, fraction: real)
    requires spread >= 0.0 && 0.0 <= fraction <= 1.0
    ensures 0.0 <= Product(spread, fraction) <= spread && (fraction == 1.0 ==> Product(spread, fraction) == spread)
  {
    MulIsNonnegative(spread, fraction);
    MulOrders(fraction, 1.0, spread);
    if fraction == 1.0 {
      MulOrders(1.0, fraction, spread);
    }
  }

  lemma BandBounds(configured: real, floor: real, spread: real, full: real)
    requires 0.0 <= configured && 0.0 <= floor <= spread
    ensures var band := Max(configured, if full > 0.0 then Min(floor, full) else floor);
            && configured <= band <= Max(configured, spread)
            && (full > 0.0 ==> band <= Max(configured, full))
            && (full <= 0.0 && floor == spread ==> band == Max(configured, spread))
  {
  }

  lemma FractionGrows(narrow: real, wide: real, fraction: real)
    requires narrow <= wide && 0.0 <= fraction
    ensures Product(narrow, fraction) <= Product(wide, fraction)
  {
    MulOrders(narrow, wide, fraction);
  }

  lemma BandForm(cfg: MakerConfig, plan: Plan) returns (floor: real)
    ensures 0.0 <= floor <= Max(0.0, plan.existingSpreadBps)
    ensures cfg.adaptiveSpreadFraction >= 1.0 ==> floor == Max(0.0, plan.existingSpreadBps)
    ensures var configured := Max(0.0, cfg.repriceThresholdBps + cfg.repriceHysteresisBps);
            EffectiveThresholdBps(cfg, plan) == if !cfg.adaptiveReprice then configured
              else Max(configured, if cfg.fullRepriceThresholdBps > 0.0 then Min(floor, cfg.fullRepriceThresholdBps) else floor)
  {
    var fraction := Min(1.0, Max(0.0, cfg.adaptiveSpreadFraction));
    floor := Product(Max(0.0, plan.existingSpreadBps), fraction);
    FractionOfSpread(Max(0.0, plan.existingSpreadBps), fraction);
  }

  /** The band is never narrower than configured, hysteresis included. Only the adaptive mode widens it, by
      no more than the book's own spread and up to the full-reprice threshold when there is one. */
  lemma BandIsBounded(cfg: MakerConfig, plan: Plan)
    ensures var band, configured := EffectiveThresholdBps(cfg, plan), Max(0.0, cfg.repriceThresholdBps + cfg.repriceHysteresisBps);
            && configured <= band
            && (!cfg.adaptiveReprice ==> band == configured)
            && band <= Max(configured, plan.existingSpreadBps)
            && (cfg.fullRepriceThresholdBps > 0.0 ==> band <= Max(configured, cfg.fullRepriceThresholdBps))
            && (cfg.adaptiveReprice && cfg.adaptiveSpreadFraction >= 1.0 && cfg.fullRepriceThresholdBps <= 0.0 ==>
                  band == Max(configured, plan.existingSpreadBps))
  {
    var floor := BandForm(cfg, plan);
    BandBounds(Max(0.0, cfg.repriceThresholdBps + cfg.repriceHysteresisBps), floor, Max(0.0, plan.existingSpreadBps), cfg.fullRepriceThresholdBps);
  }

  /** A wider spread never narrows the band. */
  lemma BandGrowsWithSpread(cfg: MakerConfig, narrow: Plan, wide: Plan)
    requires narrow.existingSpreadBps <= wide.existingSpreadBps
    ensures EffectiveThresholdBps(cfg, narrow) <= EffectiveThresholdBps(cfg, wide)
  {
    FractionGrows(Max(0.0, narrow.existingSpreadBps), Max(0.0, wide.existingSpreadBps), Min(1.0, Max(0.0, cfg.adaptiveSpreadFraction)));
  }

  // ---- adoption after a restart ----

  /** More than a negligible part of the order is filled. */
  predicate HasFills(o: OpenOrder) {
    if o.amount.Some? && o.remaining.Some? then Abs(o.amount.value - o.remaining.value) > 0.0000000001 * Max(Abs(o.amount.value), 1.0)
    else o.filled.Some? && o.filled.value > 0.0000000001 * Max(Abs(if o.amount.Some? then o.amount.value else 0.0), 1.0)
  }

  function RowsOn(rows: seq<Row>, side: Side): nat {
    if rows == [] then 0 else RowsOn(rows[..|rows| - 1], side) + (if rows[|rows| - 1].side == side then 1 else 0)
  }

  function OrdersOn(open: seq<OpenOrder>, side: Side): nat {
    if open == [] then 0 else OrdersOn(open[..|open| - 1], side) + (if open[|open| - 1].side == Some(side) then 1 else 0)
  }

  lemma {:induction false} CountExpected(rows: seq<Row>, side: Side)
    ensures |ExpectedRows(rows, side)| == RowsOn(rows, side)
  {
    if rows != [] {
      CountExpected(rows[..|rows| - 1], side);
    }
  }

  lemma {:induction false} CountObserved(open: seq<OpenOrder>, side: Side)
    requires forall o :: o in open ==> Adoptable(o)
    ensures |ObservedOrders(open, side)| == OrdersOn(open, side)
  {
    if open != [] {
      assert open[|open| - 1] in open;
      CountObserved(open[..|open| - 1], side);
    }
  }

  lemma SideIsAdoptedExactlyWhen(compared: seq<Row>, open: seq<OpenOrder>, side: Side)
    requires forall o :: o in open ==> Adoptable(o)
    ensures AdoptSide(compared, open, side).Some? <==> RowsOn(compared, side) == OrdersOn(open, side)
  {
    CountExpected(compared, side);
    CountObserved(open, side);
    SortSortsAndPermutes(ExpectedRows(compared, side));
    SortSortsAndPermutes(ObservedOrders(open, side));
  }

  /** The order has a side and a price and nothing of it is filled. */
  predicate Whole(o: OpenOrder) {
    o.side.Some? && o.price.Some? && o.price.value > 0.0 && !HasFills(o)
  }

  lemma WholeIsAdoptable(o: OpenOrder)
    ensures Adoptable(o) <==> Whole(o)
  {
  }

  lemma WholeBookIsAdoptedExactlyWhen(plan: Plan, compared: seq<Row>, open: seq<OpenOrder>)
    requires open != [] && forall o :: o in open ==> Adoptable(o)
    ensures Adopt(plan, compared, Some(open)).Some? <==>
            |open| == |compared| && AdoptSide(compared, open, Buy).Some? && AdoptSide(compared, open, Sell).Some?
  {
  }

  /** After a restart a book is adopted exactly when it has as many orders as the plan, on each side as well,
      and all of them are priced and unfilled. */
  lemma AdoptedExactlyWhen(plan: Plan, compared: seq<Row>, open: seq<OpenOrder>)
    requires open != []
    ensures Adopt(plan, compared, Some(open)).Some? <==>
            && |open| == |compared| && RowsOn(compared, Buy) == OrdersOn(open, Buy) && RowsOn(compared, Sell) == OrdersOn(open, Sell)
            && forall o :: o in open ==> Whole(o)
  {
    forall o | o in open
      ensures Adoptable(o) <==> Whole(o)
    {
      WholeIsAdoptable(o);
    }
    if forall o :: o in open ==> Adoptable(o) {
      SideIsAdoptedExactlyWhen(compared, open, Buy);
      SideIsAdoptedExactlyWhen(compared, open, Sell);
      WholeBookIsAdoptedExactlyWhen(plan, compared, open);
    }
  }

  lemma NothingAdopted(i: CycleInput, o: OpenOrder)
    requires i.WellFormed() && i.approved && i.valid && i.previous.None? && i.tracked != []
    requires i.open.Some? && o in i.open.value && HasFills(o)
    ensures Decide(i).Replace? && Decide(i).mode != Partial
  {
    assert PartlyFilled(o) && !Adoptable(o);
    assert Adopt(i.plan, ComparisonOrders(i.plan.orders, i.prepared), i.open).None?;
  }

  lemma PartlyFilledIsWhole(s: MakerState, e: CycleEnv, o: OpenOrder)
    requires EnvOk(s, e) && e.approved && e.valid && s.plan.None? && o in e.snapshot && HasFills(o)
    ensures Decide(InputOf(s, e)).Replace? && Decide(InputOf(s, e)).mode != Partial
  {
    TrackedMeansSnapshot(s, e);
    if InputOf(s, e).force {
      WholeWithoutComparison(InputOf(s, e));
    } else {
      NothingAdopted(InputOf(s, e), o);
    }
  }

  /** A loop without a remembered plan never adopts a book that holds a partly filled order: an approved,
      valid cycle rebuilds the ladder. */
  lemma PartlyFilledBookIsRebuilt(s: MakerState, ev: Event, t: MakerState, o: OpenOrder)
    requires Step(s, ev, t) && EnvOf(ev).Some? && s.plan.None?
    requires var e := EnvOf(ev).value;
             EnvOk(s, e) && e.approved && e.valid && o in e.snapshot && HasFills(o)
    ensures !ev.Cycle?
    ensures ev.PlacedCycle? ==> HoldsExactly(t.open, ev.env.plan.orders, ev.env.prepared, ev.newIds)
  {
    PartlyFilledIsWhole(s, EnvOf(ev).value, o);
    if ev.PlacedCycle? {
      WholePlacementHolds(s, ev.env, ev.newIds, t);
    }
  }
}
