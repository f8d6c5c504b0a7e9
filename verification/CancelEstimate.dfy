/** The cancel count announced to the risk gate before a cycle, and the orders the cycle then selects. */
module CancelEstimate {
  import opened Numbers
  import opened LadderMatching
  import opened MarketMaker

  function EstimatedCancelCount(i: CycleInput): nat
    requires i.plan.mid != 0.0
  {
    var full := |i.tracked|;
    if full == 0 || i.force || i.cfg.repriceThresholdBps <= 0.0 then full
    else if i.previous.None? || |i.previous.value.orders| != full then full
    else if OpenOrderIds(i.previous, i.open).None? then full
    else
      // `previous_mid_price or plan mid`: a zero mid counts as missing here
      var reference := if i.previousMid.Some? && i.previousMid.value != 0.0 then i.previousMid else i.previous.value.mid;
      if MovedTooFar(i.cfg, i.plan, reference) then full
      else
        var changes := PlanOrderChanges(i.previous, i.plan, i.plan.orders);
        if changes.None? then full else CountCrossed(changes.value, EffectiveThresholdBps(i.cfg, i.plan))
  }

  function SelectedForCancel(d: Decision): nat {
    if d.Replace? then |d.cancels| else 0
  }

  /** Validation left every price and cost as planned. */
  ghost predicate Unrounded(i: CycleInput) {
    && |i.prepared| == |i.plan.orders|
    && forall n :: 0 <= n < |i.prepared| ==>
         i.prepared[n].price == i.plan.orders[n].price && i.prepared[n].cost == i.plan.orders[n].quote
  }

  ghost predicate SamePrices(a: seq<Row>, b: seq<Row>) {
    |a| == |b| && forall n :: 0 <= n < |a| ==>
      a[n].PlanKey() == b[n].PlanKey() && a[n].price == b[n].price && a[n].quote == b[n].quote
  }

  lemma {:induction false} SamePricesSameChanges(previous: map<Key, Row>, a: seq<Row>, b: seq<Row>, mid: real)
    requires mid != 0.0 && SamePrices(a, b)
    ensures Changes(previous, a, mid) == Changes(previous, b, mid)
  {
    if a != [] {
      SamePricesSameChanges(previous, a[..|a| - 1], b[..|b| - 1], mid);
    }
  }

  /** A worst change under the threshold means no level crosses it. */
  lemma {:induction false} QuietLadderCrossesNothing(previous: map<Key, Row>, compared: seq<Row>, mid: real, threshold: real)
    requires mid != 0.0
    requires WorstChange(previous, compared, mid).Some? && WorstChange(previous, compared, mid).value < threshold
    ensures Changes(previous, compared, mid).Some?
    ensures CountCrossed(Changes(previous, compared, mid).value, threshold) == 0
  {
    if compared != [] {
      QuietLadderCrossesNothing(previous, compared[..|compared| - 1], mid, threshold);
      var before := Changes(previous, compared[..|compared| - 1], mid).value;
      var all := Changes(previous, compared, mid).value;
      assert all[..|all| - 1] == before;
    }
  }

  lemma {:induction false} DistinctKeysCountOnce(changes: seq<Change>, threshold: real)
    requires forall a, b :: 0 <= a < b < |changes| ==> changes[a].key != changes[b].key
    ensures |ChangedKeys(changes, threshold)| == CountCrossed(changes, threshold)
  {
    if changes != [] {
      var n := |changes| - 1;
      DistinctKeysCountOnce(changes[..n], threshold);
      assert changes == changes[..n] + [changes[n]];
      var before := ChangedKeys(changes[..n], threshold);
      assert changes[n].key !in before;
      assert ChangedKeys(changes, threshold) == before + (if Crossed(changes[n], threshold) then {changes[n].key} else {});
    }
  }

  lemma CrossedKeysAreCounted(i: CycleInput)
    requires i.WellFormed() && DistinctKeys(i.plan.orders)
    requires PlanOrderChanges(i.previous, i.plan, i.plan.orders).Some?
    ensures var c, t := PlanOrderChanges(i.previous, i.plan, i.plan.orders).value, EffectiveThresholdBps(i.cfg, i.plan);
            |ChangedKeys(c, t)| == CountCrossed(c, t) && CountCrossed(c, t) <= |i.plan.orders|
  {
    var c, t := PlanOrderChanges(i.previous, i.plan, i.plan.orders).value, EffectiveThresholdBps(i.cfg, i.plan);
    ChangesAre(ByKey(i.previous.value.orders), i.plan.orders, i.plan.mid);
    DistinctKeysCountOnce(c, t);
    CountIsAtMostLength(c, t);
  }

  lemma {:induction false} CountIsAtMostLength(changes: seq<Change>, threshold: real)
    ensures CountCrossed(changes, threshold) <= |changes|
  {
    if changes != [] {
      CountIsAtMostLength(changes[..|changes| - 1], threshold);
    }
  }

  lemma {:induction false} SelectHasOnePerKey(rows: seq<Row>, keys: set<Key>)
    requires DistinctKeys(rows) && keys <= PlanKeys(rows)
    ensures |Select(rows, keys)| == |keys|
  {
    if rows == [] {
      assert keys == {};
    } else {
      var n := |rows| - 1;
      assert rows == rows[..n] + [rows[n]];
      var key := rows[n].PlanKey();
      assert PlanKeys(rows) == PlanKeys(rows[..n]) + {key};
      assert forall r :: r in rows[..n] ==> r.PlanKey() != key;
      SelectHasOnePerKey(rows[..n], keys - {key});
      SelectIgnoresAbsentKey(rows[..n], keys, key);
    }
  }

  lemma {:induction false} SelectIgnoresAbsentKey(rows: seq<Row>, keys: set<Key>, key: Key)
    requires key !in PlanKeys(rows)
    ensures Select(rows, keys) == Select(rows, keys - {key})
  {
    if rows != [] {
      var n := |rows| - 1;
      assert rows == rows[..n] + [rows[n]];
      assert rows[n].PlanKey() in PlanKeys(rows);
      assert PlanKeys(rows[..n]) <= PlanKeys(rows);
      SelectIgnoresAbsentKey(rows[..n], keys, key);
    }
  }

  function CrossedCount(i: CycleInput): Option<nat>
    requires i.plan.mid != 0.0
  {
    var changes := PlanOrderChanges(i.previous, i.plan, i.plan.orders);
    if changes.None? || OpenOrderIds(i.previous, i.open).None? then None
    else Some(CountCrossed(changes.value, EffectiveThresholdBps(i.cfg, i.plan)))
  }

  lemma SelectionSize(i: CycleInput, previous: Option<ActivePlan>, prepared: seq<Row>)
    requires i.plan.mid != 0.0
    ensures var changes := PlanOrderChanges(previous, i.plan, prepared);
            var selected := SelectedForCancel(ReplaceCrossed(i, previous, prepared));
            if changes.None? || OpenOrderIds(previous, i.open).None? then selected == |i.tracked|
            else (var changed := ChangedKeys(changes.value, EffectiveThresholdBps(i.cfg, i.plan));
                  selected == if changed == {} then 0
                              else if |changed| < |i.plan.orders| then |Select(prepared, changed)|
                              else |i.tracked|)
  {
  }

  lemma PreparedChangesAreEstimatedChanges(i: CycleInput, prepared: seq<Row>)
    requires i.WellFormed() && Unrounded(i)
    requires prepared == ComparisonOrders(i.plan.orders, i.prepared)
    ensures PlanOrderChanges(i.previous, i.plan, prepared) == PlanOrderChanges(i.previous, i.plan, i.plan.orders)
    ensures PlanKeys(prepared) == PlanKeys(i.plan.orders)
    ensures DistinctKeys(i.plan.orders) ==> DistinctKeys(prepared)
  {
    assert SamePrices(prepared, i.plan.orders);
    PlanKeysByIndex(prepared, i.plan.orders);
    if i.previous.Some? {
      SamePricesSameChanges(ByKey(i.previous.value.orders), prepared, i.plan.orders, i.plan.mid);
    }
  }

  lemma ChangedKeysAreCompared(i: CycleInput)
    requires i.WellFormed() && PlanOrderChanges(i.previous, i.plan, i.plan.orders).Some?
    ensures ChangedKeys(PlanOrderChanges(i.previous, i.plan, i.plan.orders).value, EffectiveThresholdBps(i.cfg, i.plan))
         <= PlanKeys(i.plan.orders)
  {
    ChangesAre(ByKey(i.previous.value.orders), i.plan.orders, i.plan.mid);
  }

  /** What a cycle that compares level by level selects, when prices are unrounded. */
  lemma SelectiveCycleSelects(i: CycleInput, prepared: seq<Row>)
    requires i.WellFormed() && DistinctKeys(i.plan.orders) && i.plan.orders != [] && Unrounded(i)
    requires prepared == ComparisonOrders(i.plan.orders, i.prepared)
    ensures SelectedForCancel(ReplaceCrossed(i, i.previous, prepared))
         == if CrossedCount(i).Some? && CrossedCount(i).value < |i.plan.orders| then CrossedCount(i).value else |i.tracked|
  {
    PreparedChangesAreEstimatedChanges(i, prepared);
    SelectionSize(i, i.previous, prepared);
    if CrossedCount(i).Some? {
      CrossedKeysAreCounted(i);
      ChangedKeysAreCompared(i);
      var changes := PlanOrderChanges(i.previous, i.plan, i.plan.orders).value;
      SelectHasOnePerKey(prepared, ChangedKeys(changes, EffectiveThresholdBps(i.cfg, i.plan)));
    }
  }

  lemma PlanKeysByIndex(a: seq<Row>, b: seq<Row>)
    requires SamePrices(a, b)
    ensures PlanKeys(a) == PlanKeys(b)
  {
  }

  /** The reference mid the cycle itself uses: here a zero mid is not missing. */
  function CycleReference(i: CycleInput): Option<real>
    requires i.previous.Some?
  {
    if i.previousMid.None? then i.previous.value.mid else i.previousMid
  }

  predicate ForcedFull(i: CycleInput)
    requires i.plan.mid != 0.0 && i.previous.Some?
  {
    i.force || |i.tracked| != |i.plan.orders| || MovedTooFar(i.cfg, i.plan, CycleReference(i))
  }

  /** The branches of a live cycle that remembers a plan and tracks orders. */
  lemma RememberedCycle(i: CycleInput)
    requires i.WellFormed() && i.previous.Some? && i.tracked != [] && i.approved
    ensures var prepared := ComparisonOrders(i.plan.orders, i.prepared);
            var reprice := RepriceBps(i.previous, i.plan, i.plan.orders);
            var d := SelectedForCancel(Decide(i));
            if ForcedFull(i) || i.cfg.repriceThresholdBps <= 0.0 then d == if i.valid then |i.tracked| else 0
            else if reprice.Some? && reprice.value < EffectiveThresholdBps(i.cfg, i.plan) then d == 0
            else d == if i.valid then SelectedForCancel(ReplaceCrossed(i, i.previous, prepared)) else 0
  {
  }

  lemma EstimateBranches(i: CycleInput)
    requires i.WellFormed() && i.tracked != []
    ensures i.previous.None? || i.force || i.cfg.repriceThresholdBps <= 0.0 ==> EstimatedCancelCount(i) == |i.tracked|
    ensures i.previous.Some? && |i.previous.value.orders| != |i.tracked| ==> EstimatedCancelCount(i) == |i.tracked|
    ensures i.previous.Some? && MovedTooFar(i.cfg, i.plan, CycleReference(i)) ==> EstimatedCancelCount(i) == |i.tracked|
    ensures EstimatedCancelCount(i) == |i.tracked|
            || (i.previous.Some? && CrossedCount(i) == Some(EstimatedCancelCount(i)))
  {
  }

  lemma DistinctRowsAreIndexed(rows: seq<Row>)
    requires DistinctKeys(rows)
    ensures |ByKey(rows)| == |rows|
  {
    ByKeyIs(rows);
    if rows != [] {
      var n := |rows| - 1;
      DistinctRowsAreIndexed(rows[..n]);
      ByKeyIs(rows[..n]);
      assert forall r :: r in rows[..n] ==> r.PlanKey() != rows[n].PlanKey();
      assert rows[n].PlanKey() !in ByKey(rows[..n]);
    }
  }

  lemma UnrememberedCycle(i: CycleInput)
    requires i.WellFormed() && (i.previous.None? || i.tracked == [])
    ensures SelectedForCancel(Decide(i)) <= |i.tracked|
  {
    if i.tracked != [] && |i.tracked| == |i.plan.orders| {
      var prepared := ComparisonOrders(i.plan.orders, i.prepared);
      var compared := if i.open.Some? && i.open.value != [] then prepared else i.plan.orders;
      var adopted := Adopt(i.plan, compared, i.open);
      AdoptingSelection(i, adopted, prepared);
    }
  }

  lemma AdoptingSelection(i: CycleInput, previous: Option<ActivePlan>, prepared: seq<Row>)
    requires i.plan.mid != 0.0 && |prepared| == |i.plan.orders| == |i.tracked|
    ensures SelectedForCancel(ReplaceCrossed(i, previous, prepared)) <= |i.tracked|
  {
    SelectionSize(i, previous, prepared);
    var changes := PlanOrderChanges(previous, i.plan, prepared);
    if changes.Some? {
      SelectAtMost(prepared, ChangedKeys(changes.value, EffectiveThresholdBps(i.cfg, i.plan)));
    }
  }

  lemma {:induction false} SelectAtMost(rows: seq<Row>, keys: set<Key>)
    ensures |Select(rows, keys)| <= |rows|
  {
    if rows != [] {
      SelectAtMost(rows[..|rows| - 1], keys);
    }
  }

  /** When the remembered plan cannot be compared, the estimate is the whole ladder. */
  lemma SizeMismatchIsEstimatedFull(i: CycleInput)
    requires i.WellFormed() && i.previous.Some? && DistinctKeys(i.previous.value.orders)
    requires i.tracked != [] && |i.tracked| != |i.plan.orders|
    ensures EstimatedCancelCount(i) == |i.tracked|
  {
    EstimateBranches(i);
    DistinctRowsAreIndexed(i.previous.value.orders);
  }

  lemma QuietCycleCrossesNothing(i: CycleInput)
    requires i.WellFormed() && i.previous.Some? && DistinctKeys(i.previous.value.orders)
    requires RepriceBps(i.previous, i.plan, i.plan.orders).Some?
    requires RepriceBps(i.previous, i.plan, i.plan.orders).value < EffectiveThresholdBps(i.cfg, i.plan)
    ensures OpenOrderIds(i.previous, i.open).Some? ==> CrossedCount(i) == Some(0)
  {
    DistinctRowsAreIndexed(i.previous.value.orders);
    QuietLadderCrossesNothing(ByKey(i.previous.value.orders), i.plan.orders, i.plan.mid, EffectiveThresholdBps(i.cfg, i.plan));
  }

  /** With distinct keys and unrounded prices, the cycle never selects more orders for
      cancellation than the estimate the risk gate approved. */
  lemma EstimateIsSound(i: CycleInput)
    requires i.WellFormed() && DistinctKeys(i.plan.orders) && Unrounded(i)
    requires i.previous.Some? ==> DistinctKeys(i.previous.value.orders)
    ensures SelectedForCancel(Decide(i)) <= EstimatedCancelCount(i)
  {
    if !i.approved {
    } else if i.previous.None? || i.tracked == [] {
      UnrememberedCycle(i);
    } else {
      EstimateBranches(i);
      RememberedCycle(i);
      if |i.tracked| != |i.plan.orders| {
        SizeMismatchIsEstimatedFull(i);
      } else {
        SelectiveCycleSelects(i, ComparisonOrders(i.plan.orders, i.prepared));
        SelectiveEstimateIsCrossedCount(i);
      }
    }
  }

  lemma SelectiveEstimateIsCrossedCount(i: CycleInput)
    requires i.WellFormed() && i.tracked != [] && |i.tracked| == |i.plan.orders| && DistinctKeys(i.plan.orders)
    ensures CrossedCount(i).Some? ==> CrossedCount(i).value <= |i.tracked|
  {
    if CrossedCount(i).Some? {
      CrossedKeysAreCounted(i);
    }
  }

  /** The estimator takes a remembered mid of zero for missing and consults the plan's own mid, the cycle
      does not. So a move only the estimator sees makes it announce the whole ladder although fewer
      levels crossed. */
  predicate ZeroMidHidesMove(i: CycleInput)
    requires i.plan.mid != 0.0 && i.previous.Some?
  {
    && HiddenMove(i)
    && i.tracked != [] && |i.tracked| == |i.plan.orders| && i.cfg.repriceThresholdBps > 0.0
    && CrossedCount(i).Some? && CrossedCount(i).value < |i.tracked|
  }

  /** When live orders map onto the remembered plan and nothing forces a full rebuild, the estimate is
      exact if and only if no zero mid hides a move. */
  lemma EstimateIsExactExactlyWhen(i: CycleInput)
    requires i.WellFormed() && DistinctKeys(i.plan.orders) && Unrounded(i)
    requires i.previous.Some? && DistinctKeys(i.previous.value.orders)
    requires OpenOrderIds(i.previous, i.open).Some? && !i.force && i.approved && i.valid
    ensures SelectedForCancel(Decide(i)) == EstimatedCancelCount(i) <==> !ZeroMidHidesMove(i)
  {
    if i.tracked == [] {
      UnrememberedCycle(i);
    } else if ForcedFull(i) || i.cfg.repriceThresholdBps <= 0.0 {
      RebuiltCycleEstimate(i);
    } else {
      SelectiveCycleEstimate(i);
    }
  }

  lemma RebuiltCycleEstimate(i: CycleInput)
    requires i.WellFormed() && i.approved && i.valid && i.tracked != [] && !i.force
    requires i.previous.Some? && DistinctKeys(i.previous.value.orders)
    requires ForcedFull(i) || i.cfg.repriceThresholdBps <= 0.0
    ensures SelectedForCancel(Decide(i)) == EstimatedCancelCount(i) == |i.tracked| && !ZeroMidHidesMove(i)
  {
    EstimateBranches(i);
    RememberedCycle(i);
    if |i.tracked| != |i.plan.orders| {
      SizeMismatchIsEstimatedFull(i);
    }
  }

  lemma SelectiveCycleEstimate(i: CycleInput)
    requires i.WellFormed() && DistinctKeys(i.plan.orders) && Unrounded(i) && i.approved && i.valid
    requires i.previous.Some? && DistinctKeys(i.previous.value.orders) && OpenOrderIds(i.previous, i.open).Some?
    requires i.tracked != [] && !ForcedFull(i) && i.cfg.repriceThresholdBps > 0.0
    ensures SelectedForCancel(Decide(i)) == if CrossedCount(i).Some? then CrossedCount(i).value else |i.tracked|
    ensures EstimatedCancelCount(i)
         == if HiddenMove(i) || CrossedCount(i).None? then |i.tracked| else CrossedCount(i).value
    ensures CrossedCount(i).Some? ==> CrossedCount(i).value <= |i.tracked|
  {
    RememberedCycle(i);
    SelectiveCycleSelects(i, ComparisonOrders(i.plan.orders, i.prepared));
    SelectiveEstimateIsCrossedCount(i);
    MappedCycleEstimate(i);
    var reprice := RepriceBps(i.previous, i.plan, i.plan.orders);
    if reprice.Some? && reprice.value < EffectiveThresholdBps(i.cfg, i.plan) {
      QuietCycleCrossesNothing(i);
    }
  }

  predicate HiddenMove(i: CycleInput)
    requires i.plan.mid != 0.0 && i.previous.Some?
  {
    i.previousMid == Some(0.0) && MovedTooFar(i.cfg, i.plan, i.previous.value.mid)
  }

  lemma MappedCycleEstimate(i: CycleInput)
    requires i.WellFormed() && i.previous.Some? && i.tracked != []
    requires |i.tracked| == |i.plan.orders| && DistinctKeys(i.previous.value.orders)
    requires OpenOrderIds(i.previous, i.open).Some? && !ForcedFull(i) && i.cfg.repriceThresholdBps > 0.0
    ensures EstimatedCancelCount(i) == if HiddenMove(i) || CrossedCount(i).None? then |i.tracked| else CrossedCount(i).value
  {
    DistinctRowsAreIndexed(i.previous.value.orders);
  }

  /** With a remembered mid that is missing or positive, the estimate is exact. */
  lemma EstimateIsExact(i: CycleInput)
    requires i.WellFormed() && DistinctKeys(i.plan.orders) && Unrounded(i)
    requires i.previous.Some? && DistinctKeys(i.previous.value.orders)
    requires OpenOrderIds(i.previous, i.open).Some? && !i.force && i.approved && i.valid
    requires i.previousMid.None? || i.previousMid.value > 0.0
    ensures SelectedForCancel(Decide(i)) == EstimatedCancelCount(i)
  {
    EstimateIsExactExactlyWhen(i);
  }

  // ---- a zero mid that hides a move ----

  const ROW := Row(Buy, 1, 99.0, 1.0, 99.0)

  /** One bid kept at its price while the plan's mid moved from 50 to 100 and the caller passes a mid of zero. */
  function ZeroMidInput(id: string): CycleInput {
    CycleInput(
      MakerConfig(10.0, 0.0, false, 0.0, 100.0), Plan("venue", "PAIR", 100.0, 0.0, [ROW]), [Prepared(99.0, 1.0, 99.0)],
      Some(ActivePlan("venue", "PAIR", Some(50.0), [ROW])), Some([OrderFor(id, Live(Buy, 99.0))]), Some(0.0), [id], false, true, true)
  }

  lemma OneRowMatches(id: string)
    requires id != ""
    ensures OpenOrderIds(ZeroMidInput(id).previous, ZeroMidInput(id).open) == Some(map[ROW.PlanKey() := id])
  {
    var open, plan := map[id := Live(Buy, 99.0)], ZeroMidInput(id).previous.value;
    var snapshot := ZeroMidInput(id).open.value;
    var assign := map[ROW.PlanKey() := id];
    assert PlanKeys(plan.orders) == {ROW.PlanKey()} && assign[ROW.PlanKey()] in assign.Values;
    assert snapshot[0] in snapshot && Ids(snapshot) == {id};
    MatchingIsRight(open, plan, assign, snapshot);
  }

  lemma ChangesOfOne(previous: map<Key, Row>, row: Row, prior: Row, mid: real)
    requires mid != 0.0 && row.PlanKey() in previous && previous[row.PlanKey()] == prior
    ensures var c := Change(row.PlanKey(), PriceChangeBps(prior.price, row.price, mid), QuoteChanged(prior.quote, row.quote));
            Changes(previous, [row], mid) == Some([c])
  {
    var c := Change(row.PlanKey(), PriceChangeBps(prior.price, row.price, mid), QuoteChanged(prior.quote, row.quote));
    var rows, none: seq<Change> := [row], [];
    assert rows[..|rows| - 1] == [] && Changes(previous, rows[..|rows| - 1], mid) == Some(none);
    assert none + [c] == [c];
  }

  lemma OneRowIsUnchanged(plan: Plan, previous: ActivePlan)
    requires plan.orders == [ROW] && previous.orders == [ROW] && plan.mid == 100.0
    ensures PlanOrderChanges(Some(previous), plan, plan.orders) == Some([Change(ROW.PlanKey(), 0.0, false)])
  {
    var rows, byKey := [ROW], ByKey([ROW]);
    assert rows[..0] == [] && ByKey(rows[..0]) == map[];
    assert byKey == ByKey(rows[..0])[ROW.PlanKey() := ROW] && byKey.Keys == {ROW.PlanKey()};
    DistinctRowsAreIndexed(rows);
    ChangesOfOne(byKey, ROW, ROW, 100.0);
    assert PriceChangeBps(99.0, 99.0, 100.0) == 0.0 && !QuoteChanged(99.0, 99.0);
    assert previous.orders == rows && plan.orders == rows;
  }

  lemma NothingCrossed(threshold: real)
    requires threshold > 0.0
    ensures CountCrossed([Change(ROW.PlanKey(), 0.0, false)], threshold) == 0
  {
    assert [Change(ROW.PlanKey(), 0.0, false)][..0] == [];
  }

  /** The estimator then announces one cancellation although the cycle selects none. */
  lemma ZeroMidIsOverestimated(id: string)
    requires id != ""
    ensures ZeroMidHidesMove(ZeroMidInput(id))
    ensures SelectedForCancel(Decide(ZeroMidInput(id))) != EstimatedCancelCount(ZeroMidInput(id))
  {
    var i := ZeroMidInput(id);
    OneRowMatches(id);
    OneRowIsUnchanged(i.plan, i.previous.value);
    NothingCrossed(EffectiveThresholdBps(i.cfg, i.plan));
    EstimateIsExactExactlyWhen(i);
  }
}
