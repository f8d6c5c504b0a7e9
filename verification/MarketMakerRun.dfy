/** Runs of the market maker: the remembered plan, the exchange's book and the cycles between them. */
module MarketMakerRun {
  import opened Numbers
  import opened LadderMatching
  import opened MarketMaker
  import opened OrderPlacement
  import opened Adoption

  // ---- the plan remembered after a placement ----

  function ActiveRow(previous: map<Key, Row>, comparison: map<Key, Row>, changed: set<Key>, order: Row): Row {
    var current := if order.PlanKey() in comparison then comparison[order.PlanKey()] else order;
    if order.PlanKey() in changed || previous == map[] || order.PlanKey() !in previous then current
    else previous[order.PlanKey()]
  }

  function ActiveRows(previous: map<Key, Row>, comparison: map<Key, Row>, changed: set<Key>, orders: seq<Row>): (rows: seq<Row>)
    ensures |rows| == |orders|
    ensures forall n :: 0 <= n < |rows| ==> rows[n] == ActiveRow(previous, comparison, changed, orders[n])
  {
    seq(|orders|, n requires 0 <= n < |orders| => ActiveRow(previous, comparison, changed, orders[n]))
  }

  function ActivePlanAfter(previous: Option<ActivePlan>, plan: Plan, changed: set<Key>, compared: seq<Row>): ActivePlan {
    var prior := if previous.Some? then ByKey(previous.value.orders) else map[];
    ActivePlan(plan.exchange, plan.symbol, Some(plan.mid), ActiveRows(prior, ByKey(compared), changed, plan.orders))
  }

  method ActivePlanAfterReprice(previous: Option<ActivePlan>, plan: Plan, changed: set<Key>, compared: seq<Row>)
    returns (active: ActivePlan)
    ensures active == ActivePlanAfter(previous, plan, changed, compared)
    ensures active.exchange == plan.exchange && active.symbol == plan.symbol && active.mid == Some(plan.mid) && |active.orders| == |plan.orders|
  {
    var comparison := IndexByKey(compared);
    var prior := map[];
    if previous.Some? {
      prior := IndexByKey(previous.value.orders);
    }
    var rows: seq<Row> := [];
    for n := 0 to |plan.orders|
      invariant rows == ActiveRows(prior, comparison, changed, plan.orders[..n])
    {
      rows := rows + [ActiveRow(prior, comparison, changed, plan.orders[n])];
    }
    assert plan.orders[..|plan.orders|] == plan.orders;
    active := ActivePlan(plan.exchange, plan.symbol, Some(plan.mid), rows);
  }

  // ---- the loop's state and its steps ----

  datatype MakerState = MakerState(open: map<string, Live>, plan: Option<ActivePlan>, mid: Option<real>)

  /** What the market and the venue bring to one cycle. */
  datatype CycleEnv = CycleEnv(
    cfg: MakerConfig, plan: Plan, prepared: seq<Prepared>, snapshot: seq<OpenOrder>,
    otherForceReason: bool, approved: bool, valid: bool)

  datatype Event =
    | Lost(ids: set<string>)                                  // fills and external cancels between cycles
    | Cycle(env: CycleEnv)                                    // a cycle that does not reach placement
    | PlacedCycle(env: CycleEnv, newIds: seq<string>)         // a cycle whose whole selection was placed
    | RetryCycle(env: CycleEnv, gone: set<string>)            // cancellation was not confirmed
    | FailedCycle(env: CycleEnv, after: map<string, Live>)    // creation failed; recovery forgets the plan
    | Forget                                                  // recovery after a cycle blocked by risk, or a restart

  predicate ForceReplace(s: MakerState, otherReason: bool) {
    otherReason || (s.open.Keys != {} && s.plan.Some? && |s.open| != |s.plan.value.orders|)
  }

  /** The cycle's inputs: a forced rebuild withholds the remembered plan and the open orders. */
  function InputOf(s: MakerState, e: CycleEnv): CycleInput {
    var force := ForceReplace(s, e.otherForceReason);
    CycleInput(e.cfg, e.plan, e.prepared,
      if force then None else s.plan, if force then None else Some(e.snapshot), s.mid,
      TrackedIds(e.snapshot), force, e.approved, e.valid)
  }

  function TrackedIds(snapshot: seq<OpenOrder>): (ids: seq<string>)
    ensures |ids| == |snapshot|
    ensures forall n :: 0 <= n < |ids| ==> ids[n] == snapshot[n].id
  {
    seq(|snapshot|, n requires 0 <= n < |snapshot| => snapshot[n].id)
  }

  ghost predicate EnvOk(s: MakerState, e: CycleEnv) {
    && e.plan.mid > 0.0 && |e.prepared| == |e.plan.orders|
    && DistinctKeys(e.plan.orders)
    && (forall p :: p in e.prepared ==> p.price > 0.0)
    && Presents(e.snapshot, s.open)
  }

  ghost predicate Step(s: MakerState, ev: Event, t: MakerState) {
    match ev
    case Lost(ids) => t == s.(open := s.open - ids)
    case Cycle(e) =>
      EnvOk(s, e) &&
      (match Decide(InputOf(s, e))
       case Blocked => t == s
       case Unchanged(active, _) => t == if active.mid.Some? then MakerState(s.open, Some(active), active.mid) else s
       case Replace(_, _, _, _, _, _, _) => false)
    case PlacedCycle(e, newIds) =>
      EnvOk(s, e) &&
      (match Decide(InputOf(s, e))
       case Replace(mode, changed, selected, cancels, retained, previous, compared) =>
         && |newIds| == |selected| && FreshIds(newIds, s.open.Keys)
         && (cancels != [] ==> retained <= s.open.Keys)
         && t.open == Added(if cancels == [] then s.open else Kept(s.open, retained), selected, newIds)
         && t.plan == Some(ActivePlanAfter(if mode == Partial then previous else None, e.plan, changed, compared))
         && t.mid == Some(e.plan.mid)
       case _ => false)
    case RetryCycle(e, gone) =>
      EnvOk(s, e) && Decide(InputOf(s, e)).Replace? && t == s.(open := s.open - gone)
    case FailedCycle(e, after) =>
      EnvOk(s, e) && Decide(InputOf(s, e)).Replace? && t == MakerState(after, None, None) && Healthy(after)
    case Forget => t == s.(plan := None, mid := None)
  }

  function Kept(open: map<string, Live>, ids: set<string>): map<string, Live> {
    map id | id in open && id in ids :: open[id]
  }

  // ---- the run invariant ----

  /** Every open order is its level's own order at the remembered price; filled levels may be missing. */
  ghost predicate Tracks(open: map<string, Live>, rows: seq<Row>, assign: map<Key, string>) {
    && DistinctKeys(rows)
    && assign.Keys == PlanKeys(rows)
    && Injective(assign)
    && open.Keys <= assign.Values
    && forall r :: r in rows ==>
         && r.PlanKey() in assign
         && (assign[r.PlanKey()] in open ==> open[assign[r.PlanKey()]] == Live(r.side, r.price))
  }

  ghost predicate Invariant(s: MakerState) {
    && Healthy(s.open)
    && (s.plan.Some? ==> RankedByLevel(s.plan.value.orders)
                         && exists assign :: Tracks(s.open, s.plan.value.orders, assign))
  }

  /** Adjacent compared prices leave room for two hysteresis bands. */
  ghost predicate Spaced(rows: seq<Row>, mid: real, thresholdBps: real) {
    forall a, b :: a in rows && b in rows && a.side == b.side && a.level < b.level ==>
      && PriceRank(a.side, a.price) < PriceRank(b.side, b.price)
      && 2.0 * thresholdBps * mid / BPS <= PriceRank(b.side, b.price) - PriceRank(a.side, a.price)
  }

  ghost predicate Near(price: real, target: real, mid: real, thresholdBps: real)
    requires mid != 0.0
  {
    price == target || PriceChangeBps(price, target, mid) < thresholdBps
  }

  /** One live order per level, each at its compared price or strictly inside the band around it. */
  ghost predicate HoldsLadder(open: map<string, Live>, compared: seq<Row>, mid: real, thresholdBps: real)
    requires mid != 0.0
  {
    exists assign :: HoldsUnder(open, compared, mid, thresholdBps, assign)
  }

  ghost predicate HoldsUnder(open: map<string, Live>, compared: seq<Row>, mid: real, thresholdBps: real, assign: map<Key, string>)
    requires mid != 0.0
  {
    && assign.Keys == PlanKeys(compared) && assign.Values == open.Keys && Injective(assign)
    && forall r :: r in compared ==>
         && r.PlanKey() in assign && assign[r.PlanKey()] in open
         && open[assign[r.PlanKey()]].side == r.side
         && Near(open[assign[r.PlanKey()]].price, r.price, mid, thresholdBps)
  }

  // ---- facts used by every step ----

  lemma {:induction false} InjectiveCounts<K, V>(m: map<K, V>)
    requires Injective(m)
    ensures |m.Values| == |m.Keys|
    decreases |m|
  {
    if m.Keys != {} {
      var k :| k in m;
      var rest := m - {k};
      assert rest.Keys == m.Keys - {k};
      assert rest.Values == m.Values - {m[k]} by {
        forall v
          ensures v in rest.Values <==> v in m.Values - {m[k]}
        {
          if v in m.Values - {m[k]} {
            var j :| j in m && m[j] == v;
            assert rest[j] == v;
          }
        }
      }
      InjectiveCounts(rest);
    } else {
      assert m.Values == {};
    }
  }

  lemma EqualWhenContained<T>(a: set<T>, b: set<T>)
    requires a <= b && |a| == |b|
    ensures a == b
  {
    assert b == a + (b - a);
  }

  /** A tracked ladder with no order missing is a true assignment. */
  lemma CompleteLadderAgrees(open: map<string, Live>, rows: seq<Row>, assign: map<Key, string>)
    requires Tracks(open, rows, assign) && |open| == |rows|
    ensures Agree(open, rows, assign)
  {
    InjectiveCounts(assign);
    CountKeys(rows);
    EqualWhenContained(open.Keys, assign.Values);
    forall r | r in rows
      ensures assign[r.PlanKey()] in open
    {
      assert assign[r.PlanKey()] in assign.Values;
    }
  }

  lemma ComparedKeysCover(previous: seq<Row>, compared: seq<Row>)
    requires DistinctKeys(compared) && DistinctKeys(previous) && |previous| == |compared|
    requires forall r :: r in compared ==> r.PlanKey() in PlanKeys(previous)
    ensures PlanKeys(compared) == PlanKeys(previous)
  {
    CountKeys(previous);
    CountKeys(compared);
    EqualWhenContained(PlanKeys(compared), PlanKeys(previous));
  }

  /** Orders that all stay inside the band hold the compared ladder. */
  lemma QuietLadderHolds(open: map<string, Live>, previous: seq<Row>, assign: map<Key, string>, compared: seq<Row>, mid: real, threshold: real)
    requires mid != 0.0 && Agree(open, previous, assign)
    requires DistinctKeys(compared) && |previous| == |compared|
    requires forall r :: r in compared ==>
      r.PlanKey() in ByKey(previous) && PriceChangeBps(ByKey(previous)[r.PlanKey()].price, r.price, mid) < threshold
    ensures HoldsUnder(open, compared, mid, threshold, assign)
  {
    ByKeyIs(previous);
    ComparedKeysCover(previous, compared);
    forall r | r in compared
      ensures r.PlanKey() in assign && assign[r.PlanKey()] in open
      ensures open[assign[r.PlanKey()]].side == r.side
      ensures Near(open[assign[r.PlanKey()]].price, r.price, mid, threshold)
    {
      var prior := ByKey(previous)[r.PlanKey()];
      assert prior in previous && prior.PlanKey() == r.PlanKey();
    }
  }

  lemma {:induction false} WorstChangeBounds(previous: map<Key, Row>, compared: seq<Row>, mid: real, r: Row)
    requires mid != 0.0 && WorstChange(previous, compared, mid).Some? && r in compared
    ensures r.PlanKey() in previous
    ensures PriceChangeBps(previous[r.PlanKey()].price, r.price, mid) <= WorstChange(previous, compared, mid).value
  {
    var n := |compared| - 1;
    if r != compared[n] {
      assert compared == compared[..n] + [compared[n]];
      WorstChangeBounds(previous, compared[..n], mid, r);
    }
  }

  lemma UncrossedIsNear(previous: map<Key, Row>, compared: seq<Row>, mid: real, threshold: real, r: Row)
    requires mid != 0.0 && Changes(previous, compared, mid).Some? && r in compared
    ensures r.PlanKey() in previous
    ensures r.PlanKey() !in ChangedKeys(Changes(previous, compared, mid).value, threshold) ==>
              PriceChangeBps(previous[r.PlanKey()].price, r.price, mid) < threshold
  {
  }

  // ---- strict order survives ----

  /** Orders inside a band of half the spacing stay strictly ordered by level. */
  lemma NearIsRanked(a: Row, b: Row, liveA: real, liveB: real, mid: real, threshold: real)
    requires mid > 0.0 && threshold >= 0.0 && a.side == b.side
    requires Near(liveA, a.price, mid, threshold) && Near(liveB, b.price, mid, threshold)
    requires PriceRank(a.side, a.price) < PriceRank(b.side, b.price)
    requires 2.0 * threshold * mid / BPS <= PriceRank(b.side, b.price) - PriceRank(a.side, a.price)
    ensures PriceRank(a.side, liveA) < PriceRank(b.side, liveB)
  {
    var band := threshold * mid / BPS;
    NearMeansWithin(liveA, a.price, mid, threshold);
    NearMeansWithin(liveB, b.price, mid, threshold);
    assert 2.0 * threshold * mid / BPS == 2.0 * band;
  }

  lemma NearMeansWithin(price: real, target: real, mid: real, threshold: real)
    requires mid > 0.0 && threshold >= 0.0 && Near(price, target, mid, threshold)
    ensures price == target || Abs(target - price) < threshold * mid / BPS
  {
  }

  /** The remembered rows are ranked whenever their live prices are near a spaced ladder. */
  lemma HeldLadderIsRanked(open: map<string, Live>, rows: seq<Row>, assign: map<Key, string>, compared: seq<Row>, mid: real, threshold: real)
    requires mid > 0.0 && threshold >= 0.0
    requires Agree(open, rows, assign) && HoldsUnder(open, compared, mid, threshold, assign)
    requires Spaced(compared, mid, threshold)
    ensures RankedByLevel(rows)
  {
    forall a, b | a in rows && b in rows && a.side == b.side && a.level < b.level
      ensures PriceRank(a.side, a.price) < PriceRank(b.side, b.price)
    {
      assert a.PlanKey() in PlanKeys(compared) && b.PlanKey() in PlanKeys(compared);
      var ca, cb := RowOf(compared, a.PlanKey()), RowOf(compared, b.PlanKey());
      NearIsRanked(ca, cb, a.price, b.price, mid, threshold);
    }
  }

  // ---- who owns which order after a placement ----

  ghost function AssignNew(rows: seq<Row>, ids: seq<string>): map<Key, string>
    requires |rows| == |ids|
  {
    if rows == [] then map[]
    else
      var n := |rows| - 1;
      AssignNew(rows[..n], ids[..n])[rows[n].PlanKey() := ids[n]]
  }

  lemma {:induction false} AssignNewKeys(rows: seq<Row>, ids: seq<string>)
    requires |rows| == |ids|
    ensures AssignNew(rows, ids).Keys == PlanKeys(rows)
  {
    if rows != [] {
      var n := |rows| - 1;
      AssignNewKeys(rows[..n], ids[..n]);
      assert rows == rows[..n] + [rows[n]];
      assert PlanKeys(rows) == PlanKeys(rows[..n]) + {rows[n].PlanKey()};
    }
  }

  lemma {:induction false} AssignNewAt(rows: seq<Row>, ids: seq<string>, n: nat)
    requires |rows| == |ids| && DistinctKeys(rows) && n < |rows|
    ensures rows[n].PlanKey() in AssignNew(rows, ids) && AssignNew(rows, ids)[rows[n].PlanKey()] == ids[n]
  {
    var last := |rows| - 1;
    if n < last {
      AssignNewAt(rows[..last], ids[..last], n);
    }
  }

  lemma AssignNewIs(rows: seq<Row>, ids: seq<string>)
    requires |rows| == |ids| && DistinctKeys(rows)
    ensures AssignNew(rows, ids).Keys == PlanKeys(rows)
    ensures forall n :: 0 <= n < |rows| ==> rows[n].PlanKey() in AssignNew(rows, ids)
                                            && AssignNew(rows, ids)[rows[n].PlanKey()] == ids[n]
  {
    AssignNewKeys(rows, ids);
    forall n | 0 <= n < |rows|
      ensures rows[n].PlanKey() in AssignNew(rows, ids) && AssignNew(rows, ids)[rows[n].PlanKey()] == ids[n]
    {
      AssignNewAt(rows, ids, n);
    }
  }

  lemma {:induction false} AssignNewValues(rows: seq<Row>, ids: seq<string>)
    requires |rows| == |ids| && DistinctKeys(rows)
    requires forall a, b :: 0 <= a < b < |ids| ==> ids[a] != ids[b]
    ensures AssignNew(rows, ids).Values == set id | id in ids
    ensures Injective(AssignNew(rows, ids))
  {
    if rows == [] {
      assert AssignNew(rows, ids).Values == {};
    } else {
      var n := |rows| - 1;
      AssignNewValues(rows[..n], ids[..n]);
      AssignNewKeys(rows[..n], ids[..n]);
      assert ids == ids[..n] + [ids[n]];
      assert forall r :: r in rows[..n] ==> r.PlanKey() != rows[n].PlanKey();
      assert ids[n] !in ids[..n];
      AddedValue(AssignNew(rows[..n], ids[..n]), rows[n].PlanKey(), ids[n]);
    }
  }

  lemma AddedValue<K, V>(m: map<K, V>, k: K, v: V)
    requires k !in m
    ensures m[k := v].Values == m.Values + {v}
    ensures Injective(m) && v !in m.Values ==> Injective(m[k := v])
  {
    var n := m[k := v];
    forall x | x in m.Values + {v}
      ensures x in n.Values
    {
      if x in m.Values {
        var j :| j in m && m[j] == x;
        assert n[j] == x;
      } else {
        assert n[k] == x;
      }
    }
    assert forall j :: j in m ==> m[j] in m.Values;
  }

  /** Keeping some assigned orders and placing the other levels under fresh ids gives every level
      exactly one order: the kept ones untouched, the new ones at the prices they were placed at. */
  lemma PlacedLadder(base: map<string, Live>, kept: map<Key, string>, selected: seq<Row>, newIds: seq<string>)
    requires Injective(kept) && kept.Values == base.Keys
    requires DistinctKeys(selected) && kept.Keys !! PlanKeys(selected)
    requires |newIds| == |selected| && FreshIds(newIds, base.Keys)
    ensures var after, a := Added(base, selected, newIds), kept + AssignNew(selected, newIds);
            && a.Keys == kept.Keys + PlanKeys(selected) && a.Values == after.Keys && Injective(a)
            && (forall k :: k in kept ==> a[k] == kept[k] && a[k] in base && a[k] in after && after[a[k]] == base[a[k]])
            && (forall r :: r in selected ==> r.PlanKey() in a && a[r.PlanKey()] in after && after[a[r.PlanKey()]] == Live(r.side, r.price))
  {
    AddedIs(base, selected, newIds);
    AssignNewIs(selected, newIds);
    AssignNewValues(selected, newIds);
    assert (set id | id in newIds) == set n | 0 <= n < |selected| :: newIds[n];
    assert forall k :: k in kept ==> kept[k] in kept.Values;
    UnionIsBijection(kept, AssignNew(selected, newIds));
    forall r | r in selected
      ensures r.PlanKey() in AssignNew(selected, newIds)
      ensures AssignNew(selected, newIds)[r.PlanKey()] in Added(base, selected, newIds)
      ensures Added(base, selected, newIds)[AssignNew(selected, newIds)[r.PlanKey()]] == Live(r.side, r.price)
    {
      var n :| 0 <= n < |selected| && selected[n] == r;
      assert AssignNew(selected, newIds)[selected[n].PlanKey()] == newIds[n];
    }
  }

  // ---- the remembered plan and the matching, at the start of a cycle ----

  ghost function PreviousOf(i: CycleInput): Option<ActivePlan>
    requires i.WellFormed()
  {
    if i.previous.None? && i.tracked != [] then
      Adopt(i.plan, if i.open.Some? && i.open.value != [] then ComparisonOrders(i.plan.orders, i.prepared) else i.plan.orders, i.open)
    else i.previous
  }

  lemma ComparisonKeepsKeys(orders: seq<Row>, prepared: seq<Prepared>)
    requires |orders| == |prepared| && DistinctKeys(orders)
    ensures DistinctKeys(ComparisonOrders(orders, prepared))
    ensures PlanKeys(ComparisonOrders(orders, prepared)) == PlanKeys(orders)
  {
    var rows := ComparisonOrders(orders, prepared);
    forall k
      ensures k in PlanKeys(rows) <==> k in PlanKeys(orders)
    {
      if k in PlanKeys(rows) {
        var n :| 0 <= n < |rows| && rows[n].PlanKey() == k;
        assert orders[n] in orders;
      }
      if k in PlanKeys(orders) {
        var n :| 0 <= n < |orders| && orders[n].PlanKey() == k;
        assert rows[n] in rows;
      }
    }
  }

  lemma SnapshotCount(snapshot: seq<OpenOrder>, open: map<string, Live>)
    requires Presents(snapshot, open)
    ensures |snapshot| == |open| && (snapshot == [] <==> open.Keys == {})
  {
    CountIds(snapshot);
    assert |open| == |open.Keys|;
  }

  lemma {:induction false} CountIds(open: seq<OpenOrder>)
    requires DistinctIds(open)
    ensures |Ids(open)| == |open|
  {
    if open != [] {
      var n := |open| - 1;
      CountIds(open[..n]);
      assert open == open[..n] + [open[n]];
      assert Ids(open) == Ids(open[..n]) + {open[n].id};
      assert forall o :: o in open[..n] ==> o.id != open[n].id;
    }
  }

  lemma RememberedPlanAgrees(open: map<string, Live>, plan: ActivePlan, snapshot: seq<OpenOrder>) returns (assign: map<Key, string>)
    requires Healthy(open) && RankedByLevel(plan.orders) && exists a :: Tracks(open, plan.orders, a)
    requires Presents(snapshot, open) && snapshot != [] && |open| == |plan.orders|
    ensures Agree(open, plan.orders, assign) && MatchesRightly(plan, snapshot, assign)
  {
    assign :| Tracks(open, plan.orders, assign);
    CompleteLadderAgrees(open, plan.orders, assign);
    MatchingIsRight(open, plan, assign, snapshot);
  }

  lemma AdoptedAgrees(open: map<string, Live>, plan: Plan, prepared: seq<Prepared>, snapshot: seq<OpenOrder>)
    returns (assign: map<Key, string>)
    requires Healthy(open) && Presents(snapshot, open)
    requires |prepared| == |plan.orders| && DistinctKeys(plan.orders)
    requires Adopt(plan, ComparisonOrders(plan.orders, prepared), Some(snapshot)).Some?
    ensures var p := Adopt(plan, ComparisonOrders(plan.orders, prepared), Some(snapshot)).value;
            Agree(open, p.orders, assign) && MatchesRightly(p, snapshot, assign)
  {
    var rows := ComparisonOrders(plan.orders, prepared);
    ComparisonKeepsKeys(plan.orders, prepared);
    AdoptedPlanAgrees(plan, rows, snapshot, open);
    assign := OpenOrderIds(Adopt(plan, rows, Some(snapshot)), Some(snapshot)).value;
  }

  lemma ComparedPlanIs(s: MakerState, e: CycleEnv)
    requires EnvOk(s, e) && e.snapshot != [] && !ForceReplace(s, e.otherForceReason)
    ensures PreviousOf(InputOf(s, e))
         == if s.plan.Some? then s.plan else Adopt(e.plan, ComparisonOrders(e.plan.orders, e.prepared), Some(e.snapshot))
    ensures s.plan.Some? ==> |s.open| == |s.plan.value.orders|
  {
    SnapshotCount(e.snapshot, s.open);
  }

  /** Unless a rebuild is forced, the plan a cycle compares with agrees with the exchange, and the
      sort-and-zip matching returns exactly that agreement. */
  lemma ComparedPlanAgrees(s: MakerState, e: CycleEnv) returns (assign: map<Key, string>)
    requires Invariant(s) && EnvOk(s, e) && e.snapshot != [] && !ForceReplace(s, e.otherForceReason)
    requires PreviousOf(InputOf(s, e)).Some?
    ensures Agree(s.open, PreviousOf(InputOf(s, e)).value.orders, assign)
    ensures MatchesRightly(PreviousOf(InputOf(s, e)).value, e.snapshot, assign)
  {
    ComparedPlanIs(s, e);
    if s.plan.Some? {
      assign := RememberedPlanAgrees(s.open, s.plan.value, e.snapshot);
    } else {
      assign := AdoptedAgrees(s.open, e.plan, e.prepared, e.snapshot);
    }
  }
}
