/** What every run of the market maker keeps. */
module MarketMakerSafety {
  import opened Numbers
  import opened LadderMatching
  import opened MarketMaker
  import opened OrderPlacement
  import opened MarketMakerRun
  import opened Adoption

  // ---- reading a decision ----

  ghost predicate QuietByReprice(i: CycleInput, previous: ActivePlan, compared: seq<Row>)
    requires i.plan.mid != 0.0
  {
    RepriceBps(Some(previous), i.plan, compared).Some?
    && RepriceBps(Some(previous), i.plan, compared).value < EffectiveThresholdBps(i.cfg, i.plan)
  }

  ghost predicate QuietByLevel(i: CycleInput, previous: ActivePlan, compared: seq<Row>) {
    PlanOrderChanges(Some(previous), i.plan, compared).Some?
    && ChangedKeys(PlanOrderChanges(Some(previous), i.plan, compared).value, EffectiveThresholdBps(i.cfg, i.plan)) == {}
  }

  lemma UnchangedBranch(i: CycleInput)
    requires i.WellFormed() && Decide(i).Unchanged?
    ensures i.tracked != [] && !i.force
    ensures var prepared := ComparisonOrders(i.plan.orders, i.prepared);
            || Decide(i) == ReplaceCrossed(i, PreviousOf(i), prepared)
            || (PreviousOf(i) == Some(Decide(i).active) && QuietByReprice(i, Decide(i).active, Decide(i).compared)
                && (Decide(i).compared == i.plan.orders || Decide(i).compared == prepared))
  {
  }

  lemma CrossedUnchanged(i: CycleInput, previous: Option<ActivePlan>, prepared: seq<Row>)
    requires i.plan.mid != 0.0 && ReplaceCrossed(i, previous, prepared).Unchanged?
    ensures previous == Some(ReplaceCrossed(i, previous, prepared).active)
    ensures ReplaceCrossed(i, previous, prepared).compared == prepared
    ensures QuietByLevel(i, previous.value, prepared)
  {
  }

  lemma UnchangedMeans(i: CycleInput)
    requires i.WellFormed() && Decide(i).Unchanged?
    ensures i.tracked != [] && !i.force && PreviousOf(i) == Some(Decide(i).active)
    ensures Decide(i).compared == i.plan.orders || Decide(i).compared == ComparisonOrders(i.plan.orders, i.prepared)
    ensures QuietByReprice(i, Decide(i).active, Decide(i).compared) || QuietByLevel(i, Decide(i).active, Decide(i).compared)
  {
    UnchangedBranch(i);
    if Decide(i) == ReplaceCrossed(i, PreviousOf(i), ComparisonOrders(i.plan.orders, i.prepared)) {
      CrossedUnchanged(i, PreviousOf(i), ComparisonOrders(i.plan.orders, i.prepared));
    }
  }

  lemma PartialIsCrossed(i: CycleInput)
    requires i.WellFormed() && Decide(i).Replace? && Decide(i).mode == Partial
    ensures i.tracked != [] && !i.force
    ensures Decide(i) == ReplaceCrossed(i, PreviousOf(i), ComparisonOrders(i.plan.orders, i.prepared))
  {
  }

  lemma CrossedMeans(i: CycleInput, previous: Option<ActivePlan>, prepared: seq<Row>)
    requires i.plan.mid != 0.0 && ReplaceCrossed(i, previous, prepared).Replace?
    requires ReplaceCrossed(i, previous, prepared).mode == Partial
    ensures previous.Some? && i.open.Some? && PlanOrderChanges(previous, i.plan, prepared).Some? && OpenOrderIds(previous, i.open).Some?
    ensures var d := ReplaceCrossed(i, previous, prepared);
            && d.previous == previous && d.compared == prepared && d.changed != {}
            && d.changed == ChangedKeys(PlanOrderChanges(previous, i.plan, prepared).value, EffectiveThresholdBps(i.cfg, i.plan))
            && d.selected == Select(prepared, d.changed)
            && d.retained == (set k | k in OpenOrderIds(previous, i.open).value && k !in d.changed :: OpenOrderIds(previous, i.open).value[k])
  {
  }

  /** A partial cycle's cancels are the changed levels' mapped ids, in the order they are placed. */
  lemma CrossedCancels(i: CycleInput, previous: Option<ActivePlan>, prepared: seq<Row>)
    requires i.plan.mid != 0.0 && ReplaceCrossed(i, previous, prepared).Replace?
    requires ReplaceCrossed(i, previous, prepared).mode == Partial && OpenOrderIds(previous, i.open).Some?
    ensures var d, ids := ReplaceCrossed(i, previous, prepared), OpenOrderIds(previous, i.open).value;
            |d.cancels| == |d.selected|
            && forall n :: 0 <= n < |d.cancels| ==>
                 d.selected[n].PlanKey() in ids && d.cancels[n] == ids[d.selected[n].PlanKey()]
  {
    CrossedMeans(i, previous, prepared);
    var d := ReplaceCrossed(i, previous, prepared);
    SelectedKeysAreMapped(previous.value, i.plan, prepared, i.open.value, d.changed);
    assert forall n :: 0 <= n < |d.selected| ==> d.selected[n] in d.selected;
  }

  lemma WholeMeans(i: CycleInput)
    requires i.WellFormed() && Decide(i).Replace? && Decide(i).mode != Partial
    ensures Decide(i).compared == ComparisonOrders(i.plan.orders, i.prepared)
    ensures Decide(i).selected == Decide(i).compared && Decide(i).retained == {} && Decide(i).cancels == i.tracked
    ensures Decide(i).changed == PlanKeys(i.plan.orders)
  {
  }

  lemma ThresholdIsNonnegative(cfg: MakerConfig, plan: Plan)
    ensures EffectiveThresholdBps(cfg, plan) >= 0.0
  {
  }

  // ---- cycles that leave the ladder alone ----

  lemma QuietChangesAreNear(previous: ActivePlan, i: CycleInput, compared: seq<Row>, r: Row)
    requires i.plan.mid > 0.0 && DistinctKeys(previous.orders) && r in compared
    requires QuietByReprice(i, previous, compared) || QuietByLevel(i, previous, compared)
    ensures |previous.orders| == |compared|
    ensures r.PlanKey() in ByKey(previous.orders)
    ensures PriceChangeBps(ByKey(previous.orders)[r.PlanKey()].price, r.price, i.plan.mid) < EffectiveThresholdBps(i.cfg, i.plan)
  {
    ByKeyIs(previous.orders);
    CountKeys(previous.orders);
    if QuietByReprice(i, previous, compared) {
      WorstChangeBounds(ByKey(previous.orders), compared, i.plan.mid, r);
    } else {
      UncrossedIsNear(ByKey(previous.orders), compared, i.plan.mid, EffectiveThresholdBps(i.cfg, i.plan), r);
    }
  }

  lemma QuietSizes(previous: ActivePlan, i: CycleInput, compared: seq<Row>)
    requires i.plan.mid > 0.0 && DistinctKeys(previous.orders)
    requires QuietByReprice(i, previous, compared) || QuietByLevel(i, previous, compared)
    ensures |previous.orders| == |compared|
  {
    ByKeyIs(previous.orders);
    CountKeys(previous.orders);
  }

  lemma QuietHolds(open: map<string, Live>, previous: ActivePlan, assign: map<Key, string>, i: CycleInput, compared: seq<Row>)
    requires i.plan.mid > 0.0 && Agree(open, previous.orders, assign) && DistinctKeys(compared)
    requires QuietByReprice(i, previous, compared) || QuietByLevel(i, previous, compared)
    ensures HoldsUnder(open, compared, i.plan.mid, EffectiveThresholdBps(i.cfg, i.plan), assign)
  {
    QuietSizes(previous, i, compared);
    forall r | r in compared
      ensures r.PlanKey() in ByKey(previous.orders)
      ensures PriceChangeBps(ByKey(previous.orders)[r.PlanKey()].price, r.price, i.plan.mid) < EffectiveThresholdBps(i.cfg, i.plan)
    {
      QuietChangesAreNear(previous, i, compared, r);
    }
    QuietLadderHolds(open, previous.orders, assign, compared, i.plan.mid, EffectiveThresholdBps(i.cfg, i.plan));
  }

  lemma QuietCycleHolds(s: MakerState, e: CycleEnv, active: ActivePlan, compared: seq<Row>)
    requires Invariant(s) && EnvOk(s, e) && e.snapshot != [] && !ForceReplace(s, e.otherForceReason)
    requires PreviousOf(InputOf(s, e)) == Some(active)
    requires compared == e.plan.orders || compared == ComparisonOrders(e.plan.orders, e.prepared)
    requires QuietByReprice(InputOf(s, e), active, compared) || QuietByLevel(InputOf(s, e), active, compared)
    ensures HoldsLadder(s.open, compared, e.plan.mid, EffectiveThresholdBps(e.cfg, e.plan))
  {
    var assign := ComparedPlanAgrees(s, e);
    ComparisonKeepsKeys(e.plan.orders, e.prepared);
    QuietHolds(s.open, active, assign, InputOf(s, e), compared);
  }

  lemma TrackedMeansSnapshot(s: MakerState, e: CycleEnv)
    requires EnvOk(s, e)
    ensures InputOf(s, e).WellFormed()
    ensures InputOf(s, e).tracked != [] <==> e.snapshot != []
    ensures InputOf(s, e).force == ForceReplace(s, e.otherForceReason)
    ensures !InputOf(s, e).force ==> InputOf(s, e).open == Some(e.snapshot) && InputOf(s, e).previous == s.plan
    ensures InputOf(s, e).cfg == e.cfg && InputOf(s, e).plan == e.plan && InputOf(s, e).prepared == e.prepared
  {
  }

  /** An unchanged cycle leaves one live order per level strictly inside the band around the price
      the cycle compared it with. */
  lemma UnchangedHolds(s: MakerState, e: CycleEnv)
    requires Invariant(s) && EnvOk(s, e) && Decide(InputOf(s, e)).Unchanged?
    ensures HoldsLadder(s.open, Decide(InputOf(s, e)).compared, e.plan.mid, EffectiveThresholdBps(e.cfg, e.plan))
  {
    TrackedMeansSnapshot(s, e);
    UnchangedMeans(InputOf(s, e));
    QuietCycleHolds(s, e, Decide(InputOf(s, e)).active, Decide(InputOf(s, e)).compared);
  }

  // ---- cycles that replace the whole ladder ----

  lemma {:induction false} FreshActiveRows(compared: seq<Row>, orders: seq<Row>, changed: set<Key>)
    requires DistinctKeys(compared) && |compared| == |orders|
    requires forall n :: 0 <= n < |orders| ==> compared[n].PlanKey() == orders[n].PlanKey()
    ensures ActiveRows(map[], ByKey(compared), changed, orders) == compared
  {
    ByKeyIs(compared);
    forall n | 0 <= n < |orders|
      ensures ActiveRow(map[], ByKey(compared), changed, orders[n]) == compared[n]
    {
      assert compared[n] in compared;
      RowIsUnique(compared, ByKey(compared)[compared[n].PlanKey()], compared[n]);
    }
  }

  lemma WholeLadderAgrees(compared: seq<Row>, newIds: seq<string>)
    requires DistinctKeys(compared) && |newIds| == |compared| && FreshIds(newIds, {})
    requires forall r :: r in compared ==> r.price > 0.0
    ensures Healthy(Added(map[], compared, newIds)) && Agree(Added(map[], compared, newIds), compared, AssignNew(compared, newIds))
  {
    PlacedLadder(map[], map[], compared, newIds);
    assert map[] + AssignNew(compared, newIds) == AssignNew(compared, newIds);
    AddedIsHealthy(map[], compared, newIds);
  }

  lemma AddedIsHealthy(base: map<string, Live>, selected: seq<Row>, newIds: seq<string>)
    requires |newIds| == |selected| && FreshIds(newIds, base.Keys) && Healthy(base)
    requires forall r :: r in selected ==> r.price > 0.0
    ensures Healthy(Added(base, selected, newIds))
  {
    AddedIs(base, selected, newIds);
  }

  lemma AgreeingLadderHolds(open: map<string, Live>, rows: seq<Row>, assign: map<Key, string>, mid: real, threshold: real)
    requires mid != 0.0 && Agree(open, rows, assign)
    ensures HoldsUnder(open, rows, mid, threshold, assign)
  {
  }

  // ---- cycles that replace some levels ----

  /** Rows after a partial placement: changed levels take the compared row, the rest keep theirs. */
  lemma PartialActiveRows(previous: seq<Row>, compared: seq<Row>, orders: seq<Row>, changed: set<Key>)
    requires DistinctKeys(previous) && DistinctKeys(compared) && |compared| == |orders| && previous != []
    requires PlanKeys(previous) == PlanKeys(compared)
    requires forall n :: 0 <= n < |orders| ==> compared[n].PlanKey() == orders[n].PlanKey()
    ensures var rows := ActiveRows(ByKey(previous), ByKey(compared), changed, orders);
            && |rows| == |compared|
            && forall n :: 0 <= n < |rows| ==>
                 && rows[n].PlanKey() == compared[n].PlanKey()
                 && (rows[n].PlanKey() in changed ==> rows[n] == compared[n])
                 && (rows[n].PlanKey() !in changed ==> rows[n] in previous)
  {
    ByKeyIs(previous);
    ByKeyIs(compared);
    assert previous[0].PlanKey() in ByKey(previous);
    forall n | 0 <= n < |orders|
      ensures var row := ActiveRow(ByKey(previous), ByKey(compared), changed, orders[n]);
              && row.PlanKey() == compared[n].PlanKey()
              && (row.PlanKey() in changed ==> row == compared[n])
              && (row.PlanKey() !in changed ==> row in previous)
    {
      assert compared[n] in compared;
      RowIsUnique(compared, ByKey(compared)[compared[n].PlanKey()], compared[n]);
    }
  }

  function Without(assign: map<Key, string>, keys: set<Key>): map<Key, string> {
    map k | k in assign && k !in keys :: assign[k]
  }

  /** The orders retained by a partial replacement are exactly the unchanged levels' own. */
  lemma RetainedAreOwned(open: map<string, Live>, assign: map<Key, string>, changed: set<Key>, retained: set<string>)
    requires Injective(assign) && assign.Values == open.Keys
    requires retained == set k | k in assign && k !in changed :: assign[k]
    ensures Without(assign, changed).Values == Kept(open, retained).Keys == retained
    ensures Injective(Without(assign, changed))
    ensures forall k :: k in Without(assign, changed) ==> assign[k] in Kept(open, retained) && Kept(open, retained)[assign[k]] == open[assign[k]]
  {
    var kept := Without(assign, changed);
    assert forall k :: k in assign ==> assign[k] in assign.Values;
    forall id | id in retained
      ensures id in kept.Values && id in open
    {
      var k :| k in assign && k !in changed && assign[k] == id;
      assert kept[k] == id;
    }
    forall id | id in kept.Values
      ensures id in retained
    {
      var k :| k in kept && kept[k] == id;
    }
  }

  /** After a partial placement the remembered rows agree with the exchange again. */
  lemma PartialLadderAgrees(
      open: map<string, Live>, previous: seq<Row>, assign: map<Key, string>, compared: seq<Row>, orders: seq<Row>,
      changed: set<Key>, retained: set<string>, newIds: seq<string>)
    requires Healthy(open) && Agree(open, previous, assign) && previous != []
    requires DistinctKeys(compared) && PlanKeys(compared) == PlanKeys(previous) && |compared| == |orders|
    requires forall n :: 0 <= n < |orders| ==> compared[n].PlanKey() == orders[n].PlanKey()
    requires retained == set k | k in assign && k !in changed :: assign[k]
    requires |newIds| == |Select(compared, changed)| && FreshIds(newIds, open.Keys)
    requires forall r :: r in compared ==> r.price > 0.0
    ensures var rows := ActiveRows(ByKey(previous), ByKey(compared), changed, orders);
            var after := Added(Kept(open, retained), Select(compared, changed), newIds);
            var owner := Without(assign, changed) + AssignNew(Select(compared, changed), newIds);
            Healthy(after) && Agree(after, rows, owner)
  {
    var selected, kept := Select(compared, changed), Without(assign, changed);
    SelectIs(compared, changed);
    RetainedAreOwned(open, assign, changed, retained);
    FreshStays(newIds, open.Keys, Kept(open, retained).Keys);
    PlacedLadder(Kept(open, retained), kept, selected, newIds);
    AddedIsHealthy(Kept(open, retained), selected, newIds);
    PartialActiveRows(previous, compared, orders, changed);
    PartialRowsAgree(open, previous, assign, compared, orders, changed, retained, newIds);
  }

  lemma FreshStays(ids: seq<string>, used: set<string>, fewer: set<string>)
    requires FreshIds(ids, used) && fewer <= used
    ensures FreshIds(ids, fewer)
  {
  }

  lemma PartialKeys(previous: seq<Row>, assign: map<Key, string>, compared: seq<Row>, orders: seq<Row>, changed: set<Key>, newIds: seq<string>)
    requires DistinctKeys(previous) && DistinctKeys(compared) && PlanKeys(compared) == PlanKeys(previous) == assign.Keys
    requires previous != [] && |compared| == |orders|
    requires forall n :: 0 <= n < |orders| ==> compared[n].PlanKey() == orders[n].PlanKey()
    requires |newIds| == |Select(compared, changed)|
    ensures var rows := ActiveRows(ByKey(previous), ByKey(compared), changed, orders);
            DistinctKeys(rows) && PlanKeys(rows) == PlanKeys(compared)
            && (Without(assign, changed) + AssignNew(Select(compared, changed), newIds)).Keys == PlanKeys(rows)
  {
    PartialActiveRows(previous, compared, orders, changed);
    SelectIs(compared, changed);
    AssignNewIs(Select(compared, changed), newIds);
    var rows := ActiveRows(ByKey(previous), ByKey(compared), changed, orders);
    SameKeysByIndex(rows, compared);
    forall k
      ensures k in Without(assign, changed) || k in PlanKeys(Select(compared, changed)) <==> k in PlanKeys(compared)
    {
      if k in PlanKeys(compared) && k in changed {
        var r := RowOf(compared, k);
        assert r in Select(compared, changed);
      }
    }
  }

  lemma SameKeysByIndex(a: seq<Row>, b: seq<Row>)
    requires |a| == |b| && forall n :: 0 <= n < |a| ==> a[n].PlanKey() == b[n].PlanKey()
    ensures PlanKeys(a) == PlanKeys(b)
    ensures DistinctKeys(b) ==> DistinctKeys(a)
  {
  }

  lemma PartialRowsAgree(
      open: map<string, Live>, previous: seq<Row>, assign: map<Key, string>, compared: seq<Row>, orders: seq<Row>,
      changed: set<Key>, retained: set<string>, newIds: seq<string>)
    requires Agree(open, previous, assign) && previous != []
    requires DistinctKeys(compared) && PlanKeys(compared) == PlanKeys(previous) && |compared| == |orders|
    requires forall n :: 0 <= n < |orders| ==> compared[n].PlanKey() == orders[n].PlanKey()
    requires retained == set k | k in assign && k !in changed :: assign[k]
    requires |newIds| == |Select(compared, changed)| && FreshIds(newIds, open.Keys)
    ensures var rows := ActiveRows(ByKey(previous), ByKey(compared), changed, orders);
            var after := Added(Kept(open, retained), Select(compared, changed), newIds);
            var owner := Without(assign, changed) + AssignNew(Select(compared, changed), newIds);
            Agree(after, rows, owner)
  {
    var selected, kept := Select(compared, changed), Without(assign, changed);
    var base := Kept(open, retained);
    SelectIs(compared, changed);
    RetainedAreOwned(open, assign, changed, retained);
    PlacedLadder(base, kept, selected, newIds);
    PartialActiveRows(previous, compared, orders, changed);
    PartialKeys(previous, assign, compared, orders, changed, newIds);
    var rows := ActiveRows(ByKey(previous), ByKey(compared), changed, orders);
    var after, owner := Added(base, selected, newIds), kept + AssignNew(selected, newIds);
    forall r | r in rows
      ensures r.PlanKey() in owner && owner[r.PlanKey()] in after && after[owner[r.PlanKey()]] == Live(r.side, r.price)
    {
      var n :| 0 <= n < |rows| && rows[n] == r;
      if r.PlanKey() in changed {
        assert compared[n] in compared && r in selected;
      } else {
        assert r in previous && r.PlanKey() in kept;
      }
    }
  }

  lemma PartialLadderNear(
      open: map<string, Live>, previous: seq<Row>, assign: map<Key, string>, compared: seq<Row>,
      changed: set<Key>, retained: set<string>, newIds: seq<string>, mid: real, threshold: real)
    requires mid != 0.0 && Agree(open, previous, assign)
    requires DistinctKeys(compared) && PlanKeys(compared) == PlanKeys(previous)
    requires retained == set k | k in assign && k !in changed :: assign[k]
    requires |newIds| == |Select(compared, changed)| && FreshIds(newIds, open.Keys)
    requires forall r :: r in compared ==>
      r.PlanKey() in ByKey(previous)
      && (r.PlanKey() !in changed ==> PriceChangeBps(ByKey(previous)[r.PlanKey()].price, r.price, mid) < threshold)
    ensures var after := Added(Kept(open, retained), Select(compared, changed), newIds);
            var owner := Without(assign, changed) + AssignNew(Select(compared, changed), newIds);
            forall r :: r in compared ==>
              && r.PlanKey() in owner && owner[r.PlanKey()] in after
              && after[owner[r.PlanKey()]].side == r.side
              && Near(after[owner[r.PlanKey()]].price, r.price, mid, threshold)
  {
    var selected, kept, base := Select(compared, changed), Without(assign, changed), Kept(open, retained);
    SelectIs(compared, changed);
    RetainedAreOwned(open, assign, changed, retained);
    PlacedLadder(base, kept, selected, newIds);
    ByKeyIs(previous);
    var after, owner := Added(base, selected, newIds), kept + AssignNew(selected, newIds);
    forall r | r in compared
      ensures r.PlanKey() in owner && owner[r.PlanKey()] in after
      ensures after[owner[r.PlanKey()]].side == r.side
      ensures Near(after[owner[r.PlanKey()]].price, r.price, mid, threshold)
    {
      if r.PlanKey() in changed {
        assert r in selected;
      } else {
        var prior := ByKey(previous)[r.PlanKey()];
        assert prior in previous && r.PlanKey() in kept;
      }
    }
  }

  // ---- one step ----

  lemma PreparedArePositive(e: CycleEnv)
    requires |e.prepared| == |e.plan.orders| && forall p :: p in e.prepared ==> p.price > 0.0
    ensures forall r :: r in ComparisonOrders(e.plan.orders, e.prepared) ==> r.price > 0.0
  {
  }

  lemma WholeStepMeans(s: MakerState, e: CycleEnv, newIds: seq<string>, t: MakerState)
    requires EnvOk(s, e) && Step(s, PlacedCycle(e, newIds), t) && Decide(InputOf(s, e)).mode != Partial
    ensures var rows := ComparisonOrders(e.plan.orders, e.prepared);
            && |newIds| == |rows| && FreshIds(newIds, s.open.Keys)
            && t.open == Added(map[], rows, newIds) && t.plan.Some?
            && t.plan.value.orders == ActiveRows(map[], ByKey(rows), PlanKeys(e.plan.orders), e.plan.orders)
  {
    TrackedMeansSnapshot(s, e);
    WholeMeans(InputOf(s, e));
    SnapshotCount(e.snapshot, s.open);
    assert Kept(s.open, {}) == map[];
    assert e.snapshot == [] ==> s.open == map[];
  }

  lemma FreshLadder(rows: seq<Row>, newIds: seq<string>, mid: real, threshold: real)
    requires mid != 0.0 && DistinctKeys(rows) && |newIds| == |rows| && FreshIds(newIds, {})
    requires forall r :: r in rows ==> r.price > 0.0
    ensures var open, owner := Added(map[], rows, newIds), AssignNew(rows, newIds);
            Healthy(open) && Agree(open, rows, owner) && HoldsUnder(open, rows, mid, threshold, owner)
  {
    WholeLadderAgrees(rows, newIds);
    AgreeingLadderHolds(Added(map[], rows, newIds), rows, AssignNew(rows, newIds), mid, threshold);
  }

  /** A whole-ladder placement ends with one live order per level, at exactly its placed price. */
  lemma WholePlacement(s: MakerState, e: CycleEnv, newIds: seq<string>, t: MakerState) returns (owner: map<Key, string>)
    requires EnvOk(s, e) && Step(s, PlacedCycle(e, newIds), t) && Decide(InputOf(s, e)).mode != Partial
    ensures t.plan.Some? && t.plan.value.orders == ComparisonOrders(e.plan.orders, e.prepared)
    ensures Healthy(t.open) && Agree(t.open, t.plan.value.orders, owner)
    ensures HoldsUnder(t.open, ComparisonOrders(e.plan.orders, e.prepared), e.plan.mid, EffectiveThresholdBps(e.cfg, e.plan), owner)
  {
    var rows := ComparisonOrders(e.plan.orders, e.prepared);
    WholeStepMeans(s, e, newIds, t);
    ComparisonKeepsKeys(e.plan.orders, e.prepared);
    PreparedArePositive(e);
    FreshStays(newIds, s.open.Keys, {});
    FreshActiveRows(rows, e.plan.orders, PlanKeys(e.plan.orders));
    FreshLadder(rows, newIds, e.plan.mid, EffectiveThresholdBps(e.cfg, e.plan));
    owner := AssignNew(rows, newIds);
  }

  /** The data of a partial cycle, in terms of the true owners of the open orders. */
  lemma PartialData(s: MakerState, e: CycleEnv) returns (assign: map<Key, string>)
    requires Invariant(s) && EnvOk(s, e) && Decide(InputOf(s, e)).Replace? && Decide(InputOf(s, e)).mode == Partial
    ensures var d, i := Decide(InputOf(s, e)), InputOf(s, e);
            && d.previous == PreviousOf(i) && d.previous.Some?
            && d.compared == ComparisonOrders(e.plan.orders, e.prepared) && d.selected == Select(d.compared, d.changed)
            && PlanOrderChanges(d.previous, e.plan, d.compared).Some?
            && d.changed == ChangedKeys(PlanOrderChanges(d.previous, e.plan, d.compared).value, EffectiveThresholdBps(e.cfg, e.plan))
            && d.changed != {} && e.snapshot != []
    ensures Agree(s.open, Decide(InputOf(s, e)).previous.value.orders, assign)
    ensures Decide(InputOf(s, e)).retained == set k | k in assign && k !in Decide(InputOf(s, e)).changed :: assign[k]
  {
    var i := InputOf(s, e);
    TrackedMeansSnapshot(s, e);
    PartialIsCrossed(i);
    CrossedMeans(i, PreviousOf(i), ComparisonOrders(e.plan.orders, e.prepared));
    assign := ComparedPlanAgrees(s, e);
  }

  lemma PartialSizes(previous: ActivePlan, plan: Plan, compared: seq<Row>, cfg: MakerConfig)
    requires plan.mid > 0.0 && DistinctKeys(previous.orders) && DistinctKeys(compared)
    requires PlanOrderChanges(Some(previous), plan, compared).Some?
    ensures |previous.orders| == |compared| && PlanKeys(compared) == PlanKeys(previous.orders)
    ensures var changed := ChangedKeys(PlanOrderChanges(Some(previous), plan, compared).value, EffectiveThresholdBps(cfg, plan));
            && changed <= PlanKeys(compared)
            && forall r :: r in compared ==>
                 r.PlanKey() in ByKey(previous.orders)
                 && (r.PlanKey() !in changed ==>
                       PriceChangeBps(ByKey(previous.orders)[r.PlanKey()].price, r.price, plan.mid) < EffectiveThresholdBps(cfg, plan))
  {
    ByKeyIs(previous.orders);
    CountKeys(previous.orders);
    ChangesAre(ByKey(previous.orders), compared, plan.mid);
    forall r | r in compared
      ensures r.PlanKey() in ByKey(previous.orders)
    {
      UncrossedIsNear(ByKey(previous.orders), compared, plan.mid, EffectiveThresholdBps(cfg, plan), r);
    }
    ComparedKeysCover(previous.orders, compared);
    forall r | r in compared
      ensures r.PlanKey() !in ChangedKeys(PlanOrderChanges(Some(previous), plan, compared).value, EffectiveThresholdBps(cfg, plan)) ==>
                PriceChangeBps(ByKey(previous.orders)[r.PlanKey()].price, r.price, plan.mid) < EffectiveThresholdBps(cfg, plan)
    {
      UncrossedIsNear(ByKey(previous.orders), compared, plan.mid, EffectiveThresholdBps(cfg, plan), r);
    }
  }

  /** What a partial placement works on. */
  ghost predicate PartialInputs(
      open: map<string, Live>, previous: seq<Row>, assign: map<Key, string>, compared: seq<Row>, orders: seq<Row>,
      changed: set<Key>, retained: set<string>, newIds: seq<string>, mid: real, threshold: real)
  {
    && mid != 0.0 && Healthy(open) && Agree(open, previous, assign) && previous != []
    && DistinctKeys(compared) && PlanKeys(compared) == PlanKeys(previous) && |compared| == |orders|
    && (forall n :: 0 <= n < |orders| ==> compared[n].PlanKey() == orders[n].PlanKey())
    && retained == (set k | k in assign && k !in changed :: assign[k])
    && |newIds| == |Select(compared, changed)| && FreshIds(newIds, open.Keys)
    && (forall r :: r in compared ==> r.price > 0.0)
    && (forall r :: r in compared ==>
          r.PlanKey() in ByKey(previous)
          && (r.PlanKey() !in changed ==> PriceChangeBps(ByKey(previous)[r.PlanKey()].price, r.price, mid) < threshold))
  }

  lemma PartialRowsLadder(
      open: map<string, Live>, previous: seq<Row>, assign: map<Key, string>, compared: seq<Row>, orders: seq<Row>,
      changed: set<Key>, retained: set<string>, newIds: seq<string>, mid: real, threshold: real)
    requires PartialInputs(open, previous, assign, compared, orders, changed, retained, newIds, mid, threshold)
    ensures var after := Added(Kept(open, retained), Select(compared, changed), newIds);
            var owner := Without(assign, changed) + AssignNew(Select(compared, changed), newIds);
            && Healthy(after) && Agree(after, ActiveRows(ByKey(previous), ByKey(compared), changed, orders), owner)
            && HoldsUnder(after, compared, mid, threshold, owner)
  {
    PartialLadderAgrees(open, previous, assign, compared, orders, changed, retained, newIds);
    PartialLadderNear(open, previous, assign, compared, changed, retained, newIds, mid, threshold);
    PartialKeys(previous, assign, compared, orders, changed, newIds);
  }

  lemma PartialInputsHold(
      open: map<string, Live>, previous: ActivePlan, assign: map<Key, string>, e: CycleEnv,
      changed: set<Key>, retained: set<string>, newIds: seq<string>)
    requires e.plan.mid > 0.0 && |e.prepared| == |e.plan.orders| && DistinctKeys(e.plan.orders)
    requires forall p :: p in e.prepared ==> p.price > 0.0
    requires Healthy(open) && Agree(open, previous.orders, assign)
    requires PlanOrderChanges(Some(previous), e.plan, ComparisonOrders(e.plan.orders, e.prepared)).Some?
    requires changed == ChangedKeys(PlanOrderChanges(Some(previous), e.plan, ComparisonOrders(e.plan.orders, e.prepared)).value,
                                    EffectiveThresholdBps(e.cfg, e.plan))
    requires changed != {} && retained == set k | k in assign && k !in changed :: assign[k]
    requires var selected := Select(ComparisonOrders(e.plan.orders, e.prepared), changed);
             |newIds| == |selected| && FreshIds(newIds, open.Keys)
    ensures PartialInputs(open, previous.orders, assign, ComparisonOrders(e.plan.orders, e.prepared), e.plan.orders, changed, retained, newIds,
                          e.plan.mid, EffectiveThresholdBps(e.cfg, e.plan))
  {
    var compared := ComparisonOrders(e.plan.orders, e.prepared);
    ComparisonKeepsKeys(e.plan.orders, e.prepared);
    PreparedArePositive(e);
    PartialSizes(previous, e.plan, compared, e.cfg);
    ChangedIsSelected(compared, changed);
  }

  lemma PartialLadder(
      open: map<string, Live>, previous: ActivePlan, assign: map<Key, string>, e: CycleEnv,
      changed: set<Key>, retained: set<string>, newIds: seq<string>)
    requires e.plan.mid > 0.0 && |e.prepared| == |e.plan.orders| && DistinctKeys(e.plan.orders)
    requires forall p :: p in e.prepared ==> p.price > 0.0
    requires Healthy(open) && Agree(open, previous.orders, assign)
    requires PlanOrderChanges(Some(previous), e.plan, ComparisonOrders(e.plan.orders, e.prepared)).Some?
    requires changed == ChangedKeys(PlanOrderChanges(Some(previous), e.plan, ComparisonOrders(e.plan.orders, e.prepared)).value,
                                    EffectiveThresholdBps(e.cfg, e.plan))
    requires changed != {} && retained == set k | k in assign && k !in changed :: assign[k]
    requires var selected := Select(ComparisonOrders(e.plan.orders, e.prepared), changed);
             |newIds| == |selected| && FreshIds(newIds, open.Keys)
    ensures var compared := ComparisonOrders(e.plan.orders, e.prepared);
            var after := Added(Kept(open, retained), Select(compared, changed), newIds);
            var owner := Without(assign, changed) + AssignNew(Select(compared, changed), newIds);
            && Healthy(after)
            && Agree(after, ActiveRows(ByKey(previous.orders), ByKey(compared), changed, e.plan.orders), owner)
            && HoldsUnder(after, compared, e.plan.mid, EffectiveThresholdBps(e.cfg, e.plan), owner)
  {
    PartialInputsHold(open, previous, assign, e, changed, retained, newIds);
    PartialRowsLadder(open, previous.orders, assign, ComparisonOrders(e.plan.orders, e.prepared), e.plan.orders, changed, retained, newIds,
                      e.plan.mid, EffectiveThresholdBps(e.cfg, e.plan));
  }

  lemma PartialStepMeans(s: MakerState, e: CycleEnv, newIds: seq<string>, t: MakerState)
    requires EnvOk(s, e) && Step(s, PlacedCycle(e, newIds), t) && Decide(InputOf(s, e)).mode == Partial
    requires Decide(InputOf(s, e)).cancels != [] && Decide(InputOf(s, e)).previous.Some?
    ensures var d := Decide(InputOf(s, e));
            && |newIds| == |d.selected| && FreshIds(newIds, s.open.Keys)
            && t.open == Added(Kept(s.open, d.retained), d.selected, newIds)
            && t.plan.Some?
            && t.plan.value.orders == ActiveRows(ByKey(d.previous.value.orders), ByKey(d.compared), d.changed, e.plan.orders)
  {
  }

  /** A partial placement ends with one live order per level: replaced levels at their placed
      price, retained levels strictly inside the band. */
  lemma PartialPlacement(s: MakerState, e: CycleEnv, newIds: seq<string>, t: MakerState) returns (owner: map<Key, string>)
    requires Invariant(s) && EnvOk(s, e) && Step(s, PlacedCycle(e, newIds), t) && Decide(InputOf(s, e)).mode == Partial
    ensures t.plan.Some? && Healthy(t.open) && Agree(t.open, t.plan.value.orders, owner)
    ensures HoldsUnder(t.open, ComparisonOrders(e.plan.orders, e.prepared), e.plan.mid, EffectiveThresholdBps(e.cfg, e.plan), owner)
  {
    var assign := PartialData(s, e);
    PartialSelects(s, e, assign);
    PartialCancelsSomething(s, e);
    PartialStepMeans(s, e, newIds, t);
    var d := Decide(InputOf(s, e));
    PartialLadder(s.open, d.previous.value, assign, e, d.changed, d.retained, newIds);
    owner := Without(assign, d.changed) + AssignNew(Select(d.compared, d.changed), newIds);
  }

  lemma PartialSelects(s: MakerState, e: CycleEnv, assign: map<Key, string>)
    requires EnvOk(s, e) && Decide(InputOf(s, e)).Replace?
    requires var d := Decide(InputOf(s, e));
             && d.previous.Some? && d.changed != {}
             && d.compared == ComparisonOrders(e.plan.orders, e.prepared) && d.selected == Select(d.compared, d.changed)
             && PlanOrderChanges(d.previous, e.plan, d.compared).Some?
             && d.changed == ChangedKeys(PlanOrderChanges(d.previous, e.plan, d.compared).value, EffectiveThresholdBps(e.cfg, e.plan))
             && Agree(s.open, d.previous.value.orders, assign)
    ensures Decide(InputOf(s, e)).selected != []
  {
    var d := Decide(InputOf(s, e));
    ComparisonKeepsKeys(e.plan.orders, e.prepared);
    PartialSizes(d.previous.value, e.plan, d.compared, e.cfg);
    ChangedIsSelected(d.compared, d.changed);
  }

  lemma ChangedIsSelected(compared: seq<Row>, changed: set<Key>)
    requires changed <= PlanKeys(compared) && changed != {}
    ensures Select(compared, changed) != [] && compared != []
  {
  }

  lemma PartialCancelsSomething(s: MakerState, e: CycleEnv)
    requires EnvOk(s, e) && Decide(InputOf(s, e)).Replace? && Decide(InputOf(s, e)).mode == Partial
    requires Decide(InputOf(s, e)).selected != []
    ensures Decide(InputOf(s, e)).cancels != []
  {
    var i := InputOf(s, e);
    TrackedMeansSnapshot(s, e);
    PartialIsCrossed(i);
    CrossedMeans(i, PreviousOf(i), ComparisonOrders(e.plan.orders, e.prepared));
    CrossedCancels(i, PreviousOf(i), ComparisonOrders(e.plan.orders, e.prepared));
  }

  // ---- every run ----

  /** A cycle's prepared ladder leaves two bands between neighbouring levels. */
  ghost predicate SpacedEvent(ev: Event) {
    ev.PlacedCycle? && |ev.env.prepared| == |ev.env.plan.orders| ==>
      Spaced(ComparisonOrders(ev.env.plan.orders, ev.env.prepared), ev.env.plan.mid, EffectiveThresholdBps(ev.env.cfg, ev.env.plan))
  }

  /** What a finished cycle promises about the book it leaves. */
  ghost predicate LeavesLadder(s: MakerState, ev: Event, t: MakerState)
    requires Step(s, ev, t)
  {
    match ev
    case Cycle(e) =>
      Decide(InputOf(s, e)).Unchanged? ==>
        HoldsLadder(t.open, Decide(InputOf(s, e)).compared, e.plan.mid, EffectiveThresholdBps(e.cfg, e.plan))
    case PlacedCycle(e, _) =>
      HoldsLadder(t.open, ComparisonOrders(e.plan.orders, e.prepared), e.plan.mid, EffectiveThresholdBps(e.cfg, e.plan))
    case _ => true
  }

  lemma LosingOrdersKeepsTracking(s: MakerState, ids: set<string>)
    requires Invariant(s)
    ensures Invariant(s.(open := s.open - ids))
  {
    if s.plan.Some? {
      var assign :| Tracks(s.open, s.plan.value.orders, assign);
      assert Tracks(s.open - ids, s.plan.value.orders, assign);
    }
  }

  lemma HeldLadderKeepsInvariant(t: MakerState, rows: seq<Row>, mid: real, threshold: real, owner: map<Key, string>)
    requires mid > 0.0 && threshold >= 0.0 && Spaced(rows, mid, threshold)
    requires t.plan.Some? && Healthy(t.open) && Agree(t.open, t.plan.value.orders, owner)
    requires HoldsUnder(t.open, rows, mid, threshold, owner)
    ensures Invariant(t) && HoldsLadder(t.open, rows, mid, threshold)
  {
    HeldLadderIsRanked(t.open, t.plan.value.orders, owner, rows, mid, threshold);
    assert Tracks(t.open, t.plan.value.orders, owner);
  }

  lemma WholeCycleKeepsInvariant(s: MakerState, e: CycleEnv, newIds: seq<string>, t: MakerState)
    requires EnvOk(s, e) && Step(s, PlacedCycle(e, newIds), t) && Decide(InputOf(s, e)).mode != Partial
    requires Spaced(ComparisonOrders(e.plan.orders, e.prepared), e.plan.mid, EffectiveThresholdBps(e.cfg, e.plan))
    ensures Invariant(t)
    ensures HoldsLadder(t.open, ComparisonOrders(e.plan.orders, e.prepared), e.plan.mid, EffectiveThresholdBps(e.cfg, e.plan))
  {
    ThresholdIsNonnegative(e.cfg, e.plan);
    var owner := WholePlacement(s, e, newIds, t);
    HeldLadderKeepsInvariant(t, ComparisonOrders(e.plan.orders, e.prepared), e.plan.mid, EffectiveThresholdBps(e.cfg, e.plan), owner);
  }

  lemma PartialCycleKeepsInvariant(s: MakerState, e: CycleEnv, newIds: seq<string>, t: MakerState)
    requires Invariant(s) && EnvOk(s, e) && Step(s, PlacedCycle(e, newIds), t) && Decide(InputOf(s, e)).mode == Partial
    requires Spaced(ComparisonOrders(e.plan.orders, e.prepared), e.plan.mid, EffectiveThresholdBps(e.cfg, e.plan))
    ensures Invariant(t)
    ensures HoldsLadder(t.open, ComparisonOrders(e.plan.orders, e.prepared), e.plan.mid, EffectiveThresholdBps(e.cfg, e.plan))
  {
    ThresholdIsNonnegative(e.cfg, e.plan);
    var owner := PartialPlacement(s, e, newIds, t);
    HeldLadderKeepsInvariant(t, ComparisonOrders(e.plan.orders, e.prepared), e.plan.mid, EffectiveThresholdBps(e.cfg, e.plan), owner);
  }

  lemma AdoptedPlanHasNoMid(plan: Plan, compared: seq<Row>, open: Option<seq<OpenOrder>>)
    ensures Adopt(plan, compared, open).Some? ==> Adopt(plan, compared, open).value.mid.None?
  {
  }

  lemma UnchangedKeepsInvariant(s: MakerState, e: CycleEnv, t: MakerState)
    requires Invariant(s) && EnvOk(s, e) && Decide(InputOf(s, e)).Unchanged? && Step(s, Cycle(e), t)
    ensures Invariant(t) && t.open == s.open
  {
    TrackedMeansSnapshot(s, e);
    UnchangedMeans(InputOf(s, e));
    AdoptedPlanHasNoMid(e.plan, ComparisonOrders(e.plan.orders, e.prepared), Some(e.snapshot));
    ComparedPlanIs(s, e);
  }

  lemma StepKeepsInvariant(s: MakerState, ev: Event, t: MakerState)
    requires Invariant(s) && Step(s, ev, t) && SpacedEvent(ev)
    ensures Invariant(t) && LeavesLadder(s, ev, t)
  {
    match ev
    case Lost(ids) => LosingOrdersKeepsTracking(s, ids);
    case Cycle(e) =>
      if Decide(InputOf(s, e)).Unchanged? {
        UnchangedHolds(s, e);
        UnchangedKeepsInvariant(s, e, t);
      }
    case PlacedCycle(e, newIds) =>
      if Decide(InputOf(s, e)).mode == Partial {
        PartialCycleKeepsInvariant(s, e, newIds, t);
      } else {
        WholeCycleKeepsInvariant(s, e, newIds, t);
      }
    case RetryCycle(e, gone) => LosingOrdersKeepsTracking(s, gone);
    case FailedCycle(e, after) =>
    case Forget =>
  }

  ghost predicate IsRun(states: seq<MakerState>, events: seq<Event>) {
    |states| == |events| + 1 && forall n :: 0 <= n < |events| ==> Step(states[n], events[n], states[n + 1])
  }

  ghost predicate IsSpacedRun(states: seq<MakerState>, events: seq<Event>) {
    IsRun(states, events) && forall n :: 0 <= n < |events| ==> SpacedEvent(events[n])
  }

  lemma {:induction false} InvariantAt(states: seq<MakerState>, events: seq<Event>, n: nat)
    requires IsSpacedRun(states, events) && Invariant(states[0]) && n < |states|
    ensures Invariant(states[n])
  {
    if n > 0 {
      InvariantAt(states, events, n - 1);
      StepKeepsInvariant(states[n - 1], events[n - 1], states[n]);
    }
  }

  /** No drift: in any run from a state whose remembered plan is true, through fills, restarts, blocked,
      failed, unconfirmed, partial and whole cycles, every unchanged or placed cycle leaves exactly one live
      order per level, strictly inside the effective band around that level's compared price. */
  lemma NoDrift(states: seq<MakerState>, events: seq<Event>, n: nat)
    requires IsSpacedRun(states, events) && Invariant(states[0]) && n < |events|
    ensures Invariant(states[n]) && LeavesLadder(states[n], events[n], states[n + 1])
  {
    InvariantAt(states, events, n);
    StepKeepsInvariant(states[n], events[n], states[n + 1]);
  }

  /** In any such run, whenever a cycle compares with a remembered plan, the sort-and-zip matching
      returns every level's true order id. */
  lemma MatchingStaysRight(states: seq<MakerState>, events: seq<Event>, n: nat, e: CycleEnv) returns (assign: map<Key, string>)
    requires IsSpacedRun(states, events) && Invariant(states[0])
    requires n < |states| && EnvOk(states[n], e) && e.snapshot != []
    requires states[n].plan.Some? && !ForceReplace(states[n], e.otherForceReason)
    ensures Agree(states[n].open, states[n].plan.value.orders, assign)
    ensures OpenOrderIds(states[n].plan, Some(e.snapshot)) == Some(assign)
  {
    InvariantAt(states, events, n);
    ComparedPlanIs(states[n], e);
    assign := ComparedPlanAgrees(states[n], e);
  }
}
