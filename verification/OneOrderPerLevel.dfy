/** One live order per level, without assuming the matching names the true owners. */
module OneOrderPerLevel {
  import opened Numbers
  import opened StableSort
  import opened LadderMatching
  import opened MarketMaker
  import opened OrderPlacement
  import opened MarketMakerRun
  import opened MarketMakerSafety
  import opened Adoption

  /** A partial replacement splits the open orders: the ids it cancels, each once, and the ids it
      retains are disjoint and together are every open id. */
  lemma ReplacedAndRetainedPartition(i: CycleInput, previous: ActivePlan, prepared: seq<Row>)
    requires i.plan.mid > 0.0 && DistinctKeys(previous.orders) && DistinctKeys(prepared)
    requires i.open.Some? && DistinctIds(i.open.value)
    requires ReplaceCrossed(i, Some(previous), prepared).Replace? && ReplaceCrossed(i, Some(previous), prepared).mode == Partial
    ensures var d := ReplaceCrossed(i, Some(previous), prepared);
            && NoDuplicates(d.cancels)
            && (set id | id in d.cancels) !! d.retained
            && (set id | id in d.cancels) + d.retained == Ids(i.open.value)
  {
    CrossedMeans(i, Some(previous), prepared);
    CrossedCancels(i, Some(previous), prepared);
    var d, ids := ReplaceCrossed(i, Some(previous), prepared), OpenOrderIds(Some(previous), i.open).value;
    MappingIsBijection(previous, i.open.value);
    SelectIs(prepared, d.changed);
    PartialSizes(previous, i.plan, prepared, i.cfg);
    CancelsAreChanged(prepared, d.changed, d.selected, d.cancels, ids);
    ImagesPartition(ids, d.changed, d.cancels, d.retained);
  }

  lemma ImagesPartition(ids: map<Key, string>, changed: set<Key>, cancels: seq<string>, retained: set<string>)
    requires Injective(ids) && retained == set k | k in ids && k !in changed :: ids[k]
    requires forall k :: k in changed ==> k in ids && ids[k] in cancels
    requires forall id :: id in cancels ==> exists k :: k in changed && k in ids && ids[k] == id
    ensures (set id | id in cancels) !! retained
    ensures (set id | id in cancels) + retained == ids.Values
  {
  }

  lemma CancelsAreChanged(prepared: seq<Row>, changed: set<Key>, selected: seq<Row>, cancels: seq<string>, ids: map<Key, string>)
    requires DistinctKeys(prepared) && selected == Select(prepared, changed) && changed <= PlanKeys(prepared)
    requires Injective(ids) && |cancels| == |selected|
    requires forall n :: 0 <= n < |cancels| ==> selected[n].PlanKey() in ids && cancels[n] == ids[selected[n].PlanKey()]
    ensures NoDuplicates(cancels)
    ensures forall k :: k in changed ==> k in ids && ids[k] in cancels
    ensures forall id :: id in cancels ==> exists k :: k in changed && k in ids && ids[k] == id
  {
    SelectIs(prepared, changed);
    forall k | k in changed
      ensures k in ids && ids[k] in cancels
    {
      var r := RowOf(prepared, k);
      assert r in selected;
      var n :| 0 <= n < |selected| && selected[n] == r;
      assert cancels[n] == ids[k];
    }
    forall id | id in cancels
      ensures exists k :: k in changed && k in ids && ids[k] == id
    {
      var n :| 0 <= n < |cancels| && cancels[n] == id;
      assert selected[n] in selected;
      assert selected[n].PlanKey() in changed;
    }
  }

  /** The id mapped to a key is an order of the key's own side. */
  lemma MappedSides(plan: ActivePlan, open: seq<OpenOrder>, book: map<string, Live>, k: Key)
    requires DistinctKeys(plan.orders) && Presents(open, book) && forall o :: o in open ==> Usable(o)
    requires OpenOrderIds(Some(plan), Some(open)).Some? && k in OpenOrderIds(Some(plan), Some(open)).value
    ensures OpenOrderIds(Some(plan), Some(open)).value[k] in book
    ensures book[OpenOrderIds(Some(plan), Some(open)).value[k]].side == k.side
  {
    var m := MatchSide(plan.orders, open, k.side).value;
    SideCoversPlan(plan.orders, open, Buy);
    SideCoversPlan(plan.orders, open, Sell);
    SideIsBijection(plan.orders, open, k.side);
    assert m[k] in m.Values;
    var o :| o in open && o.side.Some? && o.side.value == k.side && o.id == m[k];
  }

  /** `owner` gives every key exactly one live order of its side, and there are no others. */
  ghost predicate OneOrderPerLevel(open: map<string, Live>, keys: set<Key>, owner: map<Key, string>) {
    && owner.Keys == keys && owner.Values == open.Keys && Injective(owner)
    && forall k :: k in keys ==> owner[k] in open && open[owner[k]].side == k.side
  }

  lemma KeepingIsOnePerLevel(open: map<string, Live>, ids: map<Key, string>, changed: set<Key>, retained: set<string>)
    requires OneOrderPerLevel(open, ids.Keys, ids)
    requires retained == set k | k in ids && k !in changed :: ids[k]
    ensures OneOrderPerLevel(Kept(open, retained), Without(ids, changed).Keys, Without(ids, changed))
  {
    RetainedAreOwned(open, ids, changed, retained);
  }

  lemma AddingIsOnePerLevel(base: map<string, Live>, kept: map<Key, string>, selected: seq<Row>, newIds: seq<string>)
    requires OneOrderPerLevel(base, kept.Keys, kept)
    requires DistinctKeys(selected) && kept.Keys !! PlanKeys(selected)
    requires |newIds| == |selected| && FreshIds(newIds, base.Keys)
    ensures OneOrderPerLevel(Added(base, selected, newIds), kept.Keys + PlanKeys(selected), kept + AssignNew(selected, newIds))
  {
    PlacedLadder(base, kept, selected, newIds);
    var after, owner := Added(base, selected, newIds), kept + AssignNew(selected, newIds);
    forall k | k in kept.Keys + PlanKeys(selected)
      ensures owner[k] in after && after[owner[k]].side == k.side
    {
      if k !in kept {
        var r := RowOf(selected, k);
      }
    }
  }

  lemma MappingIsOnePerLevel(plan: ActivePlan, snapshot: seq<OpenOrder>, open: map<string, Live>)
    requires DistinctKeys(plan.orders) && Presents(snapshot, open) && forall o :: o in snapshot ==> Usable(o)
    requires OpenOrderIds(Some(plan), Some(snapshot)).Some?
    ensures OneOrderPerLevel(open, PlanKeys(plan.orders), OpenOrderIds(Some(plan), Some(snapshot)).value)
  {
    MappingIsBijection(plan, snapshot);
    var ids := OpenOrderIds(Some(plan), Some(snapshot)).value;
    forall k | k in PlanKeys(plan.orders)
      ensures ids[k] in open && open[ids[k]].side == k.side
    {
      MappedSides(plan, snapshot, open, k);
    }
  }

  lemma SelectedKeys(rows: seq<Row>, changed: set<Key>)
    ensures PlanKeys(Select(rows, changed)) == PlanKeys(rows) * changed
  {
    SelectIs(rows, changed);
    forall k | k in PlanKeys(rows) * changed
      ensures k in PlanKeys(Select(rows, changed))
    {
      var r := RowOf(rows, k);
      assert r in Select(rows, changed);
    }
  }

  lemma PartialCycleHasOneOrderPerLevel(
      open: map<string, Live>, previous: ActivePlan, snapshot: seq<OpenOrder>, prepared: seq<Row>, changed: set<Key>,
      retained: set<string>, newIds: seq<string>) returns (owner: map<Key, string>)
    requires DistinctKeys(previous.orders) && DistinctKeys(prepared) && PlanKeys(prepared) == PlanKeys(previous.orders)
    requires Presents(snapshot, open) && forall o :: o in snapshot ==> Usable(o)
    requires OpenOrderIds(Some(previous), Some(snapshot)).Some?
    requires var ids := OpenOrderIds(Some(previous), Some(snapshot)).value;
             retained == set k | k in ids && k !in changed :: ids[k]
    requires |newIds| == |Select(prepared, changed)| && FreshIds(newIds, open.Keys)
    ensures OneOrderPerLevel(Added(Kept(open, retained), Select(prepared, changed), newIds), PlanKeys(prepared), owner)
  {
    var ids, selected := OpenOrderIds(Some(previous), Some(snapshot)).value, Select(prepared, changed);
    MappingIsOnePerLevel(previous, snapshot, open);
    KeepingIsOnePerLevel(open, ids, changed, retained);
    SelectIs(prepared, changed);
    SelectedKeys(prepared, changed);
    FreshStays(newIds, open.Keys, Kept(open, retained).Keys);
    AddingIsOnePerLevel(Kept(open, retained), Without(ids, changed), selected, newIds);
    assert Without(ids, changed).Keys + PlanKeys(selected) == PlanKeys(prepared);
    owner := Without(ids, changed) + AssignNew(selected, newIds);
  }

  /** Every fully placed cycle ends with exactly one live order per (side, level). It needs only
      distinct keys: the remembered prices may be wrong and the matching may name the wrong orders. */
  lemma PlacedCycleHasOneOrderPerLevel(s: MakerState, e: CycleEnv, newIds: seq<string>, t: MakerState) returns (owner: map<Key, string>)
    requires EnvOk(s, e) && Healthy(s.open) && Step(s, PlacedCycle(e, newIds), t)
    requires s.plan.Some? ==> DistinctKeys(s.plan.value.orders)
    ensures OneOrderPerLevel(t.open, PlanKeys(e.plan.orders), owner)
  {
    var rows := ComparisonOrders(e.plan.orders, e.prepared);
    ComparisonKeepsKeys(e.plan.orders, e.prepared);
    if Decide(InputOf(s, e)).mode == Partial {
      owner := PartialOwner(s, e, newIds, t);
    } else {
      owner := WholePlacement(s, e, newIds, t);
      AgreeingIsOnePerLevel(t.open, rows, owner);
    }
  }

  lemma AgreeingIsOnePerLevel(open: map<string, Live>, rows: seq<Row>, owner: map<Key, string>)
    requires Agree(open, rows, owner)
    ensures OneOrderPerLevel(open, PlanKeys(rows), owner)
  {
  }

  lemma PartialOwner(s: MakerState, e: CycleEnv, newIds: seq<string>, t: MakerState) returns (owner: map<Key, string>)
    requires EnvOk(s, e) && Healthy(s.open) && Step(s, PlacedCycle(e, newIds), t) && Decide(InputOf(s, e)).mode == Partial
    requires s.plan.Some? ==> DistinctKeys(s.plan.value.orders)
    ensures OneOrderPerLevel(t.open, PlanKeys(e.plan.orders), owner)
  {
    var i, rows := InputOf(s, e), ComparisonOrders(e.plan.orders, e.prepared);
    TrackedMeansSnapshot(s, e);
    PartialIsCrossed(i);
    CrossedMeans(i, PreviousOf(i), rows);
    CrossedCancels(i, PreviousOf(i), rows);
    ComparisonKeepsKeys(e.plan.orders, e.prepared);
    SnapshotIsUsable(e.snapshot, s.open);
    ComparedPlanIs(s, e);
    if s.plan.None? {
      AdoptedKeys(e.plan, rows, e.snapshot);
    }
    var previous, changed, retained := PreviousOf(i).value, Decide(i).changed, Decide(i).retained;
    PartialSizes(previous, e.plan, rows, e.cfg);
    ChangedIsSelected(rows, changed);
    PartialStepMeans(s, e, newIds, t);
    owner := PartialCycleHasOneOrderPerLevel(s.open, previous, e.snapshot, rows, changed, retained, newIds);
  }
}
