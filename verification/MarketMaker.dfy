/** One live market-maker cycle: compare the new ladder with the orders really open, keep the
    levels inside the hysteresis band, select the rest for replacement. */
module MarketMaker {
  import opened Numbers
  import opened StableSort
  import opened LadderMatching

  const QUOTE_CHANGE_RELATIVE_TOLERANCE := 0.001
  const BPS := 10000.0

  datatype MakerConfig = MakerConfig(
    repriceThresholdBps: real, repriceHysteresisBps: real,
    adaptiveReprice: bool, adaptiveSpreadFraction: real, fullRepriceThresholdBps: real)

  /** The ladder built from the current book. */
  datatype Plan = Plan(exchange: string, symbol: string, mid: real, existingSpreadBps: real, orders: seq<Row>)

  /** What exchange validation made of one plan order: price and amount on the venue's precision. */
  datatype Prepared = Prepared(price: real, amount: real, cost: real)

  datatype Change = Change(key: Key, priceChangeBps: real, quoteChanged: bool)

  // ---- comparing two plans ----

  function ByKey(rows: seq<Row>): map<Key, Row> {
    if rows == [] then map[]
    else
      var last := rows[|rows| - 1];
      ByKey(rows[..|rows| - 1])[last.PlanKey() := last]
  }

  function ComparisonOrders(orders: seq<Row>, prepared: seq<Prepared>): (rows: seq<Row>)
    requires |prepared| == |orders|
    ensures |rows| == |orders|
    ensures forall i :: 0 <= i < |rows| ==>
              rows[i] == Row(orders[i].side, orders[i].level, prepared[i].price, prepared[i].amount, prepared[i].cost)
  {
    seq(|orders|, i requires 0 <= i < |orders| =>
      Row(orders[i].side, orders[i].level, prepared[i].price, prepared[i].amount, prepared[i].cost))
  }

  function QuoteChanged(previous: real, current: real): bool {
    Abs(current - previous) > Max(Max(Abs(previous), Abs(current)), 0.000000000001) * QUOTE_CHANGE_RELATIVE_TOLERANCE
  }

  function PriceChangeBps(previous: real, current: real, mid: real): real
    requires mid != 0.0
  {
    Abs(current - previous) / mid * BPS
  }

  function WorstChange(previous: map<Key, Row>, compared: seq<Row>, mid: real): Option<real>
    requires mid != 0.0
  {
    if compared == [] then Some(0.0)
    else
      var last := compared[|compared| - 1];
      var before := WorstChange(previous, compared[..|compared| - 1], mid);
      if before.None? || last.PlanKey() !in previous || QuoteChanged(previous[last.PlanKey()].quote, last.quote) then None
      else Some(Max(before.value, PriceChangeBps(previous[last.PlanKey()].price, last.price, mid)))
  }

  function RepriceBps(previous: Option<ActivePlan>, plan: Plan, compared: seq<Row>): Option<real>
    requires plan.mid != 0.0
  {
    if previous.None? || previous.value.exchange != plan.exchange || previous.value.symbol != plan.symbol
       || |previous.value.orders| != |compared|
    then None
    else WorstChange(ByKey(previous.value.orders), compared, plan.mid)
  }

  function Changes(previous: map<Key, Row>, compared: seq<Row>, mid: real): Option<seq<Change>>
    requires mid != 0.0
  {
    if compared == [] then Some([])
    else
      var last := compared[|compared| - 1];
      var before := Changes(previous, compared[..|compared| - 1], mid);
      if before.None? || last.PlanKey() !in previous then None
      else
        var prior := previous[last.PlanKey()];
        Some(before.value + [Change(last.PlanKey(), PriceChangeBps(prior.price, last.price, mid), QuoteChanged(prior.quote, last.quote))])
  }

  function PlanOrderChanges(previous: Option<ActivePlan>, plan: Plan, compared: seq<Row>): Option<seq<Change>>
  {
    if previous.None? || |ByKey(previous.value.orders)| != |compared| then None
    else if plan.mid <= 0.0 then (if compared == [] then Some([]) else None)
    else Changes(ByKey(previous.value.orders), compared, plan.mid)
  }

  method IndexByKey(rows: seq<Row>) returns (m: map<Key, Row>)
    ensures m == ByKey(rows)
  {
    m := map[];
    for i := 0 to |rows|
      invariant m == ByKey(rows[..i])
    {
      assert rows[..i + 1][..i] == rows[..i];
      m := m[rows[i].PlanKey() := rows[i]];
    }
    assert rows[..|rows|] == rows;
  }

  method ComputeRepriceBps(previous: Option<ActivePlan>, plan: Plan, compared: seq<Row>) returns (r: Option<real>)
    requires plan.mid != 0.0
    ensures r == RepriceBps(previous, plan, compared)
    ensures r.Some? ==> previous.Some? && previous.value.exchange == plan.exchange && previous.value.symbol == plan.symbol
  {
    if previous.None? || previous.value.exchange != plan.exchange || previous.value.symbol != plan.symbol
       || |previous.value.orders| != |compared|
    {
      return None;
    }
    var byKey := IndexByKey(previous.value.orders);
    var worst := 0.0;
    for i := 0 to |compared|
      invariant WorstChange(byKey, compared[..i], plan.mid) == Some(worst)
    {
      assert compared[..i + 1][..i] == compared[..i];
      var order := compared[i];
      if order.PlanKey() !in byKey || QuoteChanged(byKey[order.PlanKey()].quote, order.quote) {
        NoWorstChange(byKey, compared, i + 1, plan.mid);
        return None;
      }
      worst := Max(worst, PriceChangeBps(byKey[order.PlanKey()].price, order.price, plan.mid));
    }
    assert compared[..|compared|] == compared;
    r := Some(worst);
  }

  lemma {:induction false} NoWorstChange(previous: map<Key, Row>, compared: seq<Row>, i: nat, mid: real)
    requires mid != 0.0 && i <= |compared| && WorstChange(previous, compared[..i], mid).None?
    ensures WorstChange(previous, compared, mid).None?
  {
    if i == |compared| {
      assert compared[..i] == compared;
    } else {
      assert compared[..|compared| - 1][..i] == compared[..i];
      NoWorstChange(previous, compared[..|compared| - 1], i, mid);
    }
  }

  lemma {:induction false} NoChanges(previous: map<Key, Row>, compared: seq<Row>, i: nat, mid: real)
    requires mid != 0.0 && i <= |compared| && Changes(previous, compared[..i], mid).None?
    ensures Changes(previous, compared, mid).None?
  {
    if i == |compared| {
      assert compared[..i] == compared;
    } else {
      assert compared[..|compared| - 1][..i] == compared[..i];
      NoChanges(previous, compared[..|compared| - 1], i, mid);
    }
  }

  method ComputePlanOrderChanges(previous: Option<ActivePlan>, plan: Plan, compared: seq<Row>) returns (r: Option<seq<Change>>)
    ensures r == PlanOrderChanges(previous, plan, compared)
  {
    if previous.None? {
      return None;
    }
    var byKey := IndexByKey(previous.value.orders);
    if |byKey| != |compared| {
      return None;
    }
    var changes: seq<Change> := [];
    for i := 0 to |compared|
      invariant plan.mid <= 0.0 ==> i == 0
      invariant plan.mid > 0.0 ==> Changes(byKey, compared[..i], plan.mid) == Some(changes)
      invariant i == 0 ==> changes == []
    {
      var order := compared[i];
      if plan.mid <= 0.0 {
        return None;
      }
      assert compared[..i + 1][..i] == compared[..i];
      if order.PlanKey() !in byKey {
        NoChanges(byKey, compared, i + 1, plan.mid);
        return None;
      }
      var prior := byKey[order.PlanKey()];
      changes := changes + [Change(order.PlanKey(), PriceChangeBps(prior.price, order.price, plan.mid), QuoteChanged(prior.quote, order.quote))];
    }
    assert compared[..|compared|] == compared;
    r := Some(changes);
  }

  function EffectiveThresholdBps(cfg: MakerConfig, plan: Plan): real {
    var threshold := Max(0.0, cfg.repriceThresholdBps + cfg.repriceHysteresisBps);
    if !cfg.adaptiveReprice then threshold
    else
      var fraction := Min(1.0, Max(0.0, cfg.adaptiveSpreadFraction));
      var floor := Product(Max(0.0, plan.existingSpreadBps), fraction);
      Max(threshold, if cfg.fullRepriceThresholdBps > 0.0 then Min(floor, cfg.fullRepriceThresholdBps) else floor)
  }

  predicate Crossed(c: Change, threshold: real) {
    c.quoteChanged || c.priceChangeBps >= threshold
  }

  function ChangedKeys(changes: seq<Change>, threshold: real): set<Key> {
    set c | c in changes && Crossed(c, threshold) :: c.key
  }

  function CountCrossed(changes: seq<Change>, threshold: real): nat {
    if changes == [] then 0
    else CountCrossed(changes[..|changes| - 1], threshold) + (if Crossed(changes[|changes| - 1], threshold) then 1 else 0)
  }

  // ---- adopting open orders when no plan is remembered ----

  predicate PartlyFilled(o: OpenOrder) {
    var tolerance := Max(Abs(if o.amount.Some? then o.amount.value else 0.0), 1.0) * 0.0000000001;
    if o.amount.Some? && o.remaining.Some? then Abs(o.amount.value - o.remaining.value) > tolerance
    else o.filled.Some? && o.filled.value > tolerance
  }

  predicate Adoptable(o: OpenOrder) {
    o.side.Some? && o.price.Some? && o.price.value > 0.0 && !PartlyFilled(o)
  }

  function ExpectedRows(rows: seq<Row>, side: Side): seq<Ranked<Row>> {
    if rows == [] then []
    else
      var last := rows[|rows| - 1];
      ExpectedRows(rows[..|rows| - 1], side) + (if last.side == side then [Ranked(last.level as real, last)] else [])
  }

  function ObservedOrders(open: seq<OpenOrder>, side: Side): seq<Ranked<OpenOrder>>
    requires forall o :: o in open ==> Adoptable(o)
  {
    if open == [] then []
    else
      var last := open[|open| - 1];
      assert last in open && Adoptable(last);
      ObservedOrders(open[..|open| - 1], side)
      + (if last.side.value == side then [Ranked(PriceRank(side, last.price.value), last)] else [])
  }

  /** The row an open order becomes at the level it was matched to. An adopted row has no amount. */
  function AdoptedRow(expected: Row, o: OpenOrder): Row
    requires o.price.Some?
  {
    var amount := if o.remaining.Some? then o.remaining else o.amount;
    Row(expected.side, expected.level, o.price.value, 0.0,
        if amount.Some? then o.price.value * amount.value else expected.quote)
  }

  function ZipRows(expected: seq<Ranked<Row>>, observed: seq<Ranked<OpenOrder>>): (rows: seq<Row>)
    requires |expected| == |observed|
    requires forall o :: o in observed ==> o.item.price.Some?
    ensures |rows| == |expected|
    ensures forall i :: 0 <= i < |rows| ==> rows[i] == AdoptedRow(expected[i].item, observed[i].item)
  {
    seq(|expected|, i requires 0 <= i < |expected| => AdoptedRow(expected[i].item, observed[i].item))
  }

  lemma {:induction false} ObservedOrdersAre(open: seq<OpenOrder>, side: Side)
    requires forall o :: o in open ==> Adoptable(o)
    ensures forall x :: x in ObservedOrders(open, side) ==>
              x.item in open && x.item.side.value == side && x.rank == PriceRank(side, x.item.price.value)
  {
    if open != [] {
      var n := |open| - 1;
      assert open[n] in open;
      ObservedOrdersAre(open[..n], side);
    }
  }

  lemma SortedObservedOrdersArePriced(open: seq<OpenOrder>, side: Side)
    requires forall o :: o in open ==> Adoptable(o)
    ensures forall x :: x in Sort(ObservedOrders(open, side)) ==> x.item.price.Some?
  {
    ObservedOrdersAre(open, side);
    forall x | x in Sort(ObservedOrders(open, side))
      ensures x.item.price.Some?
    {
      SortMembership(ObservedOrders(open, side), x);
    }
  }

  function AdoptSide(compared: seq<Row>, open: seq<OpenOrder>, side: Side): Option<seq<Row>>
    requires forall o :: o in open ==> Adoptable(o)
  {
    var e, o := Sort(ExpectedRows(compared, side)), Sort(ObservedOrders(open, side));
    SortedObservedOrdersArePriced(open, side);
    if |e| != |o| then None else Some(ZipRows(e, o))
  }

  function Adopt(plan: Plan, compared: seq<Row>, open: Option<seq<OpenOrder>>): Option<ActivePlan> {
    if open.None? || open.value == [] || |open.value| != |compared| then None
    else if exists o :: o in open.value && !Adoptable(o) then None
    else
      var buys, sells := AdoptSide(compared, open.value, Buy), AdoptSide(compared, open.value, Sell);
      if buys.None? || sells.None? then None
      else Some(ActivePlan(plan.exchange, plan.symbol, None, buys.value + sells.value))
  }

  // ---- the decision of one live cycle ----

  datatype CycleInput = CycleInput(
    cfg: MakerConfig, plan: Plan, prepared: seq<Prepared>,
    previous: Option<ActivePlan>, open: Option<seq<OpenOrder>>, previousMid: Option<real>,
    tracked: seq<string>, force: bool, approved: bool, valid: bool)
  {
    /** The builder's mid is positive and validation answers with one row per order. */
    ghost predicate WellFormed() {
      plan.mid > 0.0 && |prepared| == |plan.orders|
    }
  }

  datatype Mode = Initial | Partial | Full

  datatype Decision =
    | Blocked
    | Unchanged(active: ActivePlan, compared: seq<Row>)
    | Replace(mode: Mode, changed: set<Key>, selected: seq<Row>, cancels: seq<string>, retained: set<string>,
              previous: Option<ActivePlan>, compared: seq<Row>)

  predicate MovedTooFar(cfg: MakerConfig, plan: Plan, reference: Option<real>)
    requires plan.mid != 0.0
  {
    reference.Some? && reference.value > 0.0 && cfg.fullRepriceThresholdBps > 0.0
    && PriceChangeBps(reference.value, plan.mid, plan.mid) >= cfg.fullRepriceThresholdBps
  }

  function Select(rows: seq<Row>, keys: set<Key>): seq<Row> {
    if rows == [] then []
    else
      var last := rows[|rows| - 1];
      Select(rows[..|rows| - 1], keys) + (if last.PlanKey() in keys then [last] else [])
  }

  lemma {:induction false} SelectIs(rows: seq<Row>, keys: set<Key>)
    ensures forall r :: r in Select(rows, keys) <==> r in rows && r.PlanKey() in keys
    ensures DistinctKeys(rows) ==> DistinctKeys(Select(rows, keys))
  {
    if rows != [] {
      var n := |rows| - 1;
      SelectIs(rows[..n], keys);
      assert rows == rows[..n] + [rows[n]];
      if DistinctKeys(rows) {
        assert forall r :: r in rows[..n] ==> r.PlanKey() != rows[n].PlanKey();
      }
    }
  }

  function IdsOf(rows: seq<Row>, ids: map<Key, string>): (s: seq<string>)
    requires forall r :: r in rows ==> r.PlanKey() in ids
    ensures |s| == |rows|
    ensures forall i :: 0 <= i < |rows| ==> rows[i] in rows && s[i] == ids[rows[i].PlanKey()]
  {
    seq(|rows|, i requires 0 <= i < |rows| => assert rows[i] in rows; ids[rows[i].PlanKey()])
  }

  function ReplaceAll(i: CycleInput, mode: Mode, compared: seq<Row>, previous: Option<ActivePlan>): Decision {
    Replace(mode, PlanKeys(i.plan.orders), compared, i.tracked, {}, previous, compared)
  }

  function ReplaceCrossed(i: CycleInput, previous: Option<ActivePlan>, prepared: seq<Row>): Decision
    requires i.plan.mid != 0.0
  {
    var changes := PlanOrderChanges(previous, i.plan, prepared);
    var ids := OpenOrderIds(previous, i.open);
    if changes.None? || ids.None? then ReplaceAll(i, Full, prepared, previous)
    else
      var changed := ChangedKeys(changes.value, EffectiveThresholdBps(i.cfg, i.plan));
      if changed == {} then Unchanged(previous.value, prepared)
      else if |changed| < |i.plan.orders| then
        var selected := Select(prepared, changed);
        SelectedKeysAreMapped(previous.value, i.plan, prepared, i.open.value, changed);
        Replace(Partial, changed, selected, IdsOf(selected, ids.value),
                set k | k in ids.value && k !in changed :: ids.value[k], previous, prepared)
      else ReplaceAll(i, Full, prepared, previous)
  }

  function Decide(i: CycleInput): Decision
    requires i.WellFormed()
  {
    var prepared := ComparisonOrders(i.plan.orders, i.prepared);
    var adopting := i.previous.None? && i.tracked != [];
    var validatedEarly := adopting && i.open.Some? && i.open.value != [];
    if !i.approved || (validatedEarly && !i.valid) then Blocked
    else
      var compared := if validatedEarly then prepared else i.plan.orders;
      var previous := if adopting then Adopt(i.plan, compared, i.open) else i.previous;
      var reprice := RepriceBps(previous, i.plan, compared);
      var reference := if i.previousMid.None? && previous.Some? then previous.value.mid else i.previousMid;
      var forced := i.force || (i.tracked != [] && |i.tracked| != |i.plan.orders|) || MovedTooFar(i.cfg, i.plan, reference);
      var selective := !forced && i.cfg.repriceThresholdBps > 0.0 && i.tracked != [];
      if selective && reprice.Some? && reprice.value < EffectiveThresholdBps(i.cfg, i.plan) then
        Unchanged(previous.value, compared)
      else if !i.valid then Blocked
      else if selective then ReplaceCrossed(i, previous, prepared)
      else ReplaceAll(i, if forced then Full else Initial, prepared, previous)
  }

  lemma {:induction false} ByKeyIs(rows: seq<Row>)
    ensures ByKey(rows).Keys == PlanKeys(rows)
    ensures forall k :: k in ByKey(rows) ==> ByKey(rows)[k] in rows && ByKey(rows)[k].PlanKey() == k
  {
    if rows != [] {
      var n := |rows| - 1;
      ByKeyIs(rows[..n]);
      assert rows == rows[..n] + [rows[n]];
      assert PlanKeys(rows) == PlanKeys(rows[..n]) + {rows[n].PlanKey()};
    }
  }

  lemma {:induction false} ChangesAre(previous: map<Key, Row>, compared: seq<Row>, mid: real)
    requires mid != 0.0 && Changes(previous, compared, mid).Some?
    ensures var c := Changes(previous, compared, mid).value;
            |c| == |compared|
            && forall i :: 0 <= i < |c| ==>
                 && compared[i].PlanKey() in previous
                 && c[i] == Change(compared[i].PlanKey(),
                                   PriceChangeBps(previous[compared[i].PlanKey()].price, compared[i].price, mid),
                                   QuoteChanged(previous[compared[i].PlanKey()].quote, compared[i].quote))
  {
    if compared != [] {
      ChangesAre(previous, compared[..|compared| - 1], mid);
    }
  }

  lemma SelectedKeysAreMapped(previous: ActivePlan, plan: Plan, compared: seq<Row>, open: seq<OpenOrder>, changed: set<Key>)
    requires PlanOrderChanges(Some(previous), plan, compared).Some?
    requires OpenOrderIds(Some(previous), Some(open)).Some?
    ensures forall r :: r in Select(compared, changed) ==> r.PlanKey() in OpenOrderIds(Some(previous), Some(open)).value
  {
    SelectIs(compared, changed);
    MappingCoversPlan(previous, open);
    ByKeyIs(previous.orders);
    if compared != [] {
      ChangesAre(ByKey(previous.orders), compared, plan.mid);
    }
  }
}
