/** Matching the exchange's open orders to ladder levels: each side is sorted, expected rows by
    level and observed orders from the mid outwards, and the two lists are zipped. */
module LadderMatching {
  import opened Numbers
  import opened StableSort

  type Level = n: int | n > 0 witness 1

  datatype Side = Buy | Sell

  datatype Key = Key(side: Side, level: Level)

  datatype Row = Row(side: Side, level: Level, price: real, amount: real, quote: real) {
    function PlanKey(): Key {
      Key(side, level)
    }
  }

  /** The plan the bot carries from one cycle to the next. An adopted plan has no mid price. */
  datatype ActivePlan = ActivePlan(exchange: string, symbol: string, mid: Option<real>, orders: seq<Row>)

  /** An open order as the exchange reports it; any field may be missing. */
  datatype OpenOrder = OpenOrder(
    id: string, side: Option<Side>, price: Option<real>,
    amount: Option<real>, remaining: Option<real>, filled: Option<real>)

  predicate Usable(o: OpenOrder) {
    o.side.Some? && o.price.Some? && o.price.value > 0.0 && o.id != ""
  }

  /** Small ranks are close to the mid: buys descend in price, sells ascend. */
  function PriceRank(side: Side, price: real): real {
    if side == Buy then -price else price
  }

  // ---- the matching, as a function ----

  function Expected(rows: seq<Row>, side: Side): seq<Ranked<Key>> {
    if rows == [] then []
    else
      var last := rows[|rows| - 1];
      Expected(rows[..|rows| - 1], side)
      + (if last.side == side then [Ranked(last.level as real, last.PlanKey())] else [])
  }

  function Observed(open: seq<OpenOrder>, side: Side): seq<Ranked<string>>
    requires forall o :: o in open ==> Usable(o)
  {
    if open == [] then []
    else
      var last := open[|open| - 1];
      assert last in open && Usable(last);
      Observed(open[..|open| - 1], side)
      + (if last.side.value == side then [Ranked(PriceRank(side, last.price.value), last.id)] else [])
  }

  function Zip(keys: seq<Ranked<Key>>, ids: seq<Ranked<string>>): map<Key, string>
    requires |keys| == |ids|
  {
    if keys == [] then map[]
    else
      var n := |keys| - 1;
      Zip(keys[..n], ids[..n])[keys[n].item := ids[n].item]
  }

  function MatchSide(rows: seq<Row>, open: seq<OpenOrder>, side: Side): Option<map<Key, string>>
    requires forall o :: o in open ==> Usable(o)
  {
    var e, o := Sort(Expected(rows, side)), Sort(Observed(open, side));
    if |e| != |o| then None else Some(Zip(e, o))
  }

  function OpenOrderIds(previous: Option<ActivePlan>, open: Option<seq<OpenOrder>>): Option<map<Key, string>> {
    if previous.None? || open.None? || open.value == [] then None
    else if exists o :: o in open.value && !Usable(o) then None
    else
      var buys := MatchSide(previous.value.orders, open.value, Buy);
      var sells := MatchSide(previous.value.orders, open.value, Sell);
      if buys.None? || sells.None? then None else Some(buys.value + sells.value)
  }

  // ---- the loops that compute it ----

  method ZipInto(result: map<Key, string>, keys: seq<Ranked<Key>>, ids: seq<Ranked<string>>)
    returns (r: map<Key, string>)
    requires |keys| == |ids|
    ensures r == result + Zip(keys, ids)
  {
    r := result;
    for i := 0 to |keys|
      invariant r == result + Zip(keys[..i], ids[..i])
    {
      assert keys[..i + 1][..i] == keys[..i] && ids[..i + 1][..i] == ids[..i];
      r := r[keys[i].item := ids[i].item];
    }
    assert keys[..|keys|] == keys && ids[..|ids|] == ids;
  }

  method MatchOpenOrders(previous: Option<ActivePlan>, open: Option<seq<OpenOrder>>)
    returns (r: Option<map<Key, string>>)
    ensures r == OpenOrderIds(previous, open)
  {
    if previous.None? || open.None? || open.value == [] {
      return None;
    }
    var rows, orders := previous.value.orders, open.value;
    var expectedBuys, expectedSells: seq<Ranked<Key>> := [], [];
    for i := 0 to |rows|
      invariant expectedBuys == Expected(rows[..i], Buy) && expectedSells == Expected(rows[..i], Sell)
    {
      assert rows[..i + 1][..i] == rows[..i];
      var entry := Ranked(rows[i].level as real, rows[i].PlanKey());
      if rows[i].side == Buy {
        expectedBuys := expectedBuys + [entry];
      } else {
        expectedSells := expectedSells + [entry];
      }
    }
    assert rows[..|rows|] == rows;
    var observedBuys, observedSells: seq<Ranked<string>> := [], [];
    for i := 0 to |orders|
      invariant forall o :: o in orders[..i] ==> Usable(o)
      invariant observedBuys == Observed(orders[..i], Buy) && observedSells == Observed(orders[..i], Sell)
    {
      var o := orders[i];
      if !Usable(o) {
        return None;
      }
      assert orders[..i + 1] == orders[..i] + [o];
      var entry := Ranked(PriceRank(o.side.value, o.price.value), o.id);
      if o.side.value == Buy {
        observedBuys := observedBuys + [entry];
      } else {
        observedSells := observedSells + [entry];
      }
    }
    assert orders[..|orders|] == orders;
    var eb, ob := Sort(expectedBuys), Sort(observedBuys);
    var es, os := Sort(expectedSells), Sort(observedSells);
    if |eb| != |ob| || |es| != |os| {
      return None;
    }
    var buys := ZipInto(map[], eb, ob);
    assert buys == Zip(eb, ob);
    var all := ZipInto(buys, es, os);
    assert MatchSide(rows, orders, Buy) == Some(buys);
    assert MatchSide(rows, orders, Sell) == Some(Zip(es, os));
    r := Some(all);
  }

  // ---- facts about the pieces ----

  ghost predicate DistinctKeys(rows: seq<Row>) {
    forall i, j :: 0 <= i < j < |rows| ==> rows[i].PlanKey() != rows[j].PlanKey()
  }

  ghost predicate DistinctIds(open: seq<OpenOrder>) {
    forall i, j :: 0 <= i < j < |open| ==> open[i].id != open[j].id
  }

  function PlanKeys(rows: seq<Row>): set<Key> {
    set r | r in rows :: r.PlanKey()
  }

  function Ids(open: seq<OpenOrder>): set<string> {
    set o | o in open :: o.id
  }

  ghost predicate Injective<K, V>(m: map<K, V>) {
    forall a, b :: a in m && b in m && m[a] == m[b] ==> a == b
  }

  lemma {:induction false} ExpectedIs(rows: seq<Row>, side: Side)
    ensures forall x :: x in Expected(rows, side) <==>
              exists r :: r in rows && r.side == side && x == Ranked(r.level as real, r.PlanKey())
    ensures DistinctKeys(rows) ==> NoDuplicates(Expected(rows, side))
  {
    if rows != [] {
      var n := |rows| - 1;
      ExpectedIs(rows[..n], side);
      assert rows == rows[..n] + [rows[n]];
      if DistinctKeys(rows) {
        var x := Ranked(rows[n].level as real, rows[n].PlanKey());
        assert forall r :: r in rows[..n] ==> r.PlanKey() != rows[n].PlanKey();
        assert x !in Expected(rows[..n], side);
        AppendNoDuplicates(Expected(rows[..n], side), x);
      }
    }
  }

  lemma {:induction false} ObservedIs(open: seq<OpenOrder>, side: Side)
    requires forall o :: o in open ==> Usable(o)
    ensures forall x :: x in Observed(open, side) <==>
              exists o :: o in open && o.side.value == side && x == Ranked(PriceRank(side, o.price.value), o.id)
    ensures DistinctIds(open) ==> NoDuplicates(Observed(open, side))
  {
    if open != [] {
      var n := |open| - 1;
      ObservedIs(open[..n], side);
      assert open == open[..n] + [open[n]];
      assert open[n] in open;
      if DistinctIds(open) {
        var x := Ranked(PriceRank(side, open[n].price.value), open[n].id);
        assert forall o :: o in open[..n] ==> o.id != open[n].id;
        assert x !in Observed(open[..n], side);
        AppendNoDuplicates(Observed(open[..n], side), x);
      }
    }
  }

  lemma {:induction false} ZipIs(keys: seq<Ranked<Key>>, ids: seq<Ranked<string>>)
    requires |keys| == |ids|
    requires DistinctItems(keys)
    ensures forall i :: 0 <= i < |keys| ==> keys[i].item in Zip(keys, ids) && Zip(keys, ids)[keys[i].item] == ids[i].item
    ensures forall k :: k in Zip(keys, ids) ==> exists i :: 0 <= i < |keys| && keys[i].item == k
  {
    if keys != [] {
      var n := |keys| - 1;
      ZipIs(keys[..n], ids[..n]);
      assert forall i :: 0 <= i < n ==> keys[..n][i] == keys[i];
    }
  }

  lemma {:induction false} ZipKeys(keys: seq<Ranked<Key>>, ids: seq<Ranked<string>>)
    requires |keys| == |ids|
    ensures forall k :: k in Zip(keys, ids) <==> exists i :: 0 <= i < |keys| && keys[i].item == k
  {
    if keys != [] {
      var n := |keys| - 1;
      ZipKeys(keys[..n], ids[..n]);
      assert forall i :: 0 <= i < n ==> keys[..n][i] == keys[i];
    }
  }

  /** Every plan key is mapped, even when keys or ids repeat. */
  lemma MappingCoversPlan(plan: ActivePlan, open: seq<OpenOrder>)
    requires OpenOrderIds(Some(plan), Some(open)).Some?
    ensures OpenOrderIds(Some(plan), Some(open)).value.Keys == PlanKeys(plan.orders)
  {
    var buys := MatchSide(plan.orders, open, Buy).value;
    var sells := MatchSide(plan.orders, open, Sell).value;
    SideCoversPlan(plan.orders, open, Buy);
    SideCoversPlan(plan.orders, open, Sell);
    assert forall k: Key :: k in buys + sells <==> k in buys || k in sells;
  }

  lemma SideCoversPlan(rows: seq<Row>, open: seq<OpenOrder>, side: Side)
    requires forall o :: o in open ==> Usable(o)
    requires MatchSide(rows, open, side).Some?
    ensures forall k :: k in MatchSide(rows, open, side).value <==> k in PlanKeys(rows) && k.side == side
  {
    var e, o := Sort(Expected(rows, side)), Sort(Observed(open, side));
    ZipKeys(e, o);
    ExpectedIs(rows, side);
    forall k: Key
      ensures k in Zip(e, o) <==> k in PlanKeys(rows) && k.side == side
    {
      SortMembership(Expected(rows, side), Ranked(k.level as real, k));
      if k in Zip(e, o) {
        var i :| 0 <= i < |e| && e[i].item == k;
        SortMembership(Expected(rows, side), e[i]);
      }
    }
  }

  ghost function SideIds(open: seq<OpenOrder>, side: Side): set<string> {
    set o | o in open && o.side.Some? && o.side.value == side :: o.id
  }

  /** On one side, the zip pairs that side's keys with that side's order ids one to one. */
  lemma SideIsBijection(rows: seq<Row>, open: seq<OpenOrder>, side: Side)
    requires DistinctKeys(rows) && DistinctIds(open) && forall o :: o in open ==> Usable(o)
    requires MatchSide(rows, open, side).Some?
    ensures var m := MatchSide(rows, open, side).value;
            m.Values == SideIds(open, side) && Injective(m)
  {
    var e, o := Sort(Expected(rows, side)), Sort(Observed(open, side));
    SidesHaveDistinctItems(rows, open, side);
    ZipIsBijection(e, o);
    forall id
      ensures HasItem(o, id) <==> id in SideIds(open, side)
    {
      SideItems(open, side, id);
    }
  }

  lemma SideItems(open: seq<OpenOrder>, side: Side, id: string)
    requires forall o :: o in open ==> Usable(o)
    ensures var o := Sort(Observed(open, side));
            HasItem(o, id) <==> id in SideIds(open, side)
  {
    var o := Sort(Observed(open, side));
    ObservedIs(open, side);
    if HasItem(o, id) {
      var i :| 0 <= i < |o| && o[i].item == id;
      SortMembership(Observed(open, side), o[i]);
    }
    if id in SideIds(open, side) {
      var x :| x in open && x.side.Some? && x.side.value == side && x.id == id;
      var entry := Ranked(PriceRank(side, x.price.value), x.id);
      SortMembership(Observed(open, side), entry);
      var i :| 0 <= i < |o| && o[i] == entry;
      assert o[i].item == id;
    }
  }

  lemma ZipIsBijection(keys: seq<Ranked<Key>>, ids: seq<Ranked<string>>)
    requires |keys| == |ids| && DistinctItems(keys) && DistinctItems(ids)
    ensures Injective(Zip(keys, ids))
    ensures forall id :: id in Zip(keys, ids).Values <==> HasItem(ids, id)
  {
    var m := Zip(keys, ids);
    ZipIs(keys, ids);
    forall id | HasItem(ids, id)
      ensures id in m.Values
    {
      var i :| 0 <= i < |ids| && ids[i].item == id;
      assert m[keys[i].item] == id;
    }
  }

  lemma SidesHaveDistinctItems(rows: seq<Row>, open: seq<OpenOrder>, side: Side)
    requires DistinctKeys(rows) && DistinctIds(open) && forall o :: o in open ==> Usable(o)
    ensures DistinctItems(Sort(Expected(rows, side)))
    ensures DistinctItems(Sort(Observed(open, side)))
  {
    var e, o := Expected(rows, side), Observed(open, side);
    ExpectedIs(rows, side);
    ObservedIs(open, side);
    SortKeepsNoDuplicates(e);
    SortKeepsNoDuplicates(o);
    forall i, j | 0 <= i < j < |Sort(e)|
      ensures Sort(e)[i].item != Sort(e)[j].item
    {
      SortMembership(e, Sort(e)[i]);
      SortMembership(e, Sort(e)[j]);
    }
    forall i, j | 0 <= i < j < |Sort(o)|
      ensures Sort(o)[i].item != Sort(o)[j].item
    {
      SortMembership(o, Sort(o)[i]);
      SortMembership(o, Sort(o)[j]);
      DistinctIdsGiveOrders(open);
    }
  }

  lemma DistinctIdsGiveOrders(open: seq<OpenOrder>)
    requires DistinctIds(open)
    ensures forall a, b :: a in open && b in open && a.id == b.id ==> a == b
  {
  }

  lemma UnionIsBijection(a: map<Key, string>, b: map<Key, string>)
    requires a.Keys !! b.Keys && a.Values !! b.Values && Injective(a) && Injective(b)
    ensures (a + b).Values == a.Values + b.Values && Injective(a + b)
  {
    var m := a + b;
    forall id | id in a.Values + b.Values
      ensures id in m.Values
    {
      if id in a.Values {
        var k :| k in a && a[k] == id;
        assert m[k] == id;
      } else {
        var k :| k in b && b[k] == id;
        assert m[k] == id;
      }
    }
    assert forall k :: k in a ==> a[k] in a.Values;
    assert forall k :: k in b ==> b[k] in b.Values;
  }

  lemma SidesSplitIds(open: seq<OpenOrder>)
    requires DistinctIds(open) && forall o :: o in open ==> Usable(o)
    ensures SideIds(open, Buy) !! SideIds(open, Sell)
    ensures Ids(open) == SideIds(open, Buy) + SideIds(open, Sell)
  {
  }

  /** A returned mapping is a bijection from the plan's keys to the open order ids. */
  lemma MappingIsBijection(plan: ActivePlan, open: seq<OpenOrder>)
    requires DistinctKeys(plan.orders) && DistinctIds(open)
    requires OpenOrderIds(Some(plan), Some(open)).Some?
    ensures var m := OpenOrderIds(Some(plan), Some(open)).value;
            m.Keys == PlanKeys(plan.orders) && m.Values == Ids(open) && Injective(m)
  {
    MappingCoversPlan(plan, open);
    SideCoversPlan(plan.orders, open, Buy);
    SideCoversPlan(plan.orders, open, Sell);
    SideIsBijection(plan.orders, open, Buy);
    SideIsBijection(plan.orders, open, Sell);
    SidesSplitIds(open);
    UnionIsBijection(MatchSide(plan.orders, open, Buy).value, MatchSide(plan.orders, open, Sell).value);
  }

  // ---- when the zip names each level's true order ----

  /** What the exchange really holds for one order id. */
  datatype Live = Live(side: Side, price: real)

  ghost predicate Healthy(open: map<string, Live>) {
    forall id :: id in open ==> id != "" && open[id].price > 0.0
  }

  /** `snapshot` lists exactly the exchange's open orders, in some order. */
  ghost predicate Presents(snapshot: seq<OpenOrder>, open: map<string, Live>) {
    && DistinctIds(snapshot)
    && Ids(snapshot) == open.Keys
    && forall o :: o in snapshot ==>
         o.id in open && o.side == Some(open[o.id].side) && o.price == Some(open[o.id].price)
  }

  /** `assign` is the true owner of every level: each plan row's own order, at the row's price. */
  ghost predicate Agree(open: map<string, Live>, rows: seq<Row>, assign: map<Key, string>) {
    && DistinctKeys(rows)
    && assign.Keys == PlanKeys(rows)
    && assign.Values == open.Keys
    && Injective(assign)
    && forall r :: r in rows ==> r.PlanKey() in assign && assign[r.PlanKey()] in open
                                 && open[assign[r.PlanKey()]] == Live(r.side, r.price)
  }

  ghost predicate RankedByLevel(rows: seq<Row>) {
    forall a, b :: a in rows && b in rows && a.side == b.side && a.level < b.level ==>
      PriceRank(a.side, a.price) < PriceRank(b.side, b.price)
  }

  ghost function RowOf(rows: seq<Row>, k: Key): (r: Row)
    requires k in PlanKeys(rows)
    ensures r in rows && r.PlanKey() == k
  {
    var r :| r in rows && r.PlanKey() == k; r
  }

  lemma RowIsUnique(rows: seq<Row>, a: Row, b: Row)
    requires DistinctKeys(rows) && a in rows && b in rows && a.PlanKey() == b.PlanKey()
    ensures a == b
  {
  }

  ghost predicate AllAssigned(open: map<string, Live>, assign: map<Key, string>, keys: seq<Ranked<Key>>) {
    forall i :: 0 <= i < |keys| ==> keys[i].item in assign && assign[keys[i].item] in open
  }

  /** The observed list a side's expected keys would produce if every level owned its true order. */
  ghost function Owned(open: map<string, Live>, assign: map<Key, string>, keys: seq<Ranked<Key>>): (s: seq<Ranked<string>>)
    requires AllAssigned(open, assign, keys)
    ensures |s| == |keys|
    ensures forall i :: 0 <= i < |keys| ==>
              s[i] == Ranked(PriceRank(keys[i].item.side, open[assign[keys[i].item]].price), assign[keys[i].item])
  {
    seq(|keys|, i requires 0 <= i < |keys| =>
      Ranked(PriceRank(keys[i].item.side, open[assign[keys[i].item]].price), assign[keys[i].item]))
  }

  lemma ExpectedSideIs(rows: seq<Row>, side: Side)
    requires DistinctKeys(rows)
    ensures var e := Sort(Expected(rows, side));
            && (forall i :: 0 <= i < |e| ==>
                  e[i].item in PlanKeys(rows) && e[i].item.side == side && e[i].rank == e[i].item.level as real)
            && (forall k :: k in PlanKeys(rows) && k.side == side ==> Ranked(k.level as real, k) in e)
            && StrictlySorted(e)
  {
    var e := Sort(Expected(rows, side));
    ExpectedIs(rows, side);
    SortSortsAndPermutes(Expected(rows, side));
    SortKeepsNoDuplicates(Expected(rows, side));
    forall i | 0 <= i < |e|
      ensures e[i].item in PlanKeys(rows) && e[i].item.side == side && e[i].rank == e[i].item.level as real
    {
      SortMembership(Expected(rows, side), e[i]);
    }
    forall k: Key | k in PlanKeys(rows) && k.side == side
      ensures Ranked(k.level as real, k) in e
    {
      SortMembership(Expected(rows, side), Ranked(k.level as real, k));
    }
  }

  lemma OwnedIsObserved(
      open: map<string, Live>, rows: seq<Row>, assign: map<Key, string>, snapshot: seq<OpenOrder>, side: Side, x: Ranked<string>)
    requires Agree(open, rows, assign) && Presents(snapshot, open)
    requires forall o :: o in snapshot ==> Usable(o)
    requires AllAssigned(open, assign, Sort(Expected(rows, side)))
    ensures x in Owned(open, assign, Sort(Expected(rows, side))) <==> x in Sort(Observed(snapshot, side))
  {
    var e := Sort(Expected(rows, side));
    var owned := Owned(open, assign, e);
    ExpectedSideIs(rows, side);
    ObservedIs(snapshot, side);
    SortMembership(Observed(snapshot, side), x);
    if x in owned {
      var i :| 0 <= i < |e| && owned[i] == x;
      var k := e[i].item;
      var r := RowOf(rows, k);
      assert assign[k] in Ids(snapshot);
      var o :| o in snapshot && o.id == assign[k];
      assert x == Ranked(PriceRank(side, o.price.value), o.id);
    }
    if x in Sort(Observed(snapshot, side)) {
      var o :| o in snapshot && o.side.value == side && x == Ranked(PriceRank(side, o.price.value), o.id);
      assert o.id in assign.Values;
      var k :| k in assign && assign[k] == o.id;
      var r := RowOf(rows, k);
      assert Ranked(k.level as real, k) in e;
      var i :| 0 <= i < |e| && e[i] == Ranked(k.level as real, k);
      assert owned[i] == x;
    }
  }

  lemma SnapshotIsUsable(snapshot: seq<OpenOrder>, open: map<string, Live>)
    requires Presents(snapshot, open) && Healthy(open)
    ensures forall o :: o in snapshot ==> Usable(o)
  {
  }

  lemma OwnedIsStrictlySorted(open: map<string, Live>, rows: seq<Row>, assign: map<Key, string>, side: Side)
    requires Agree(open, rows, assign) && RankedByLevel(rows)
    requires AllAssigned(open, assign, Sort(Expected(rows, side)))
    ensures StrictlySorted(Owned(open, assign, Sort(Expected(rows, side))))
  {
    var e := Sort(Expected(rows, side));
    var owned := Owned(open, assign, e);
    ExpectedSideIs(rows, side);
    forall i, j | 0 <= i < j < |owned|
      ensures owned[i].rank < owned[j].rank
    {
      var a, b := RowOf(rows, e[i].item), RowOf(rows, e[j].item);
      assert e[i].rank < e[j].rank;
      assert open[assign[a.PlanKey()]].price == a.price && open[assign[b.PlanKey()]].price == b.price;
    }
  }

  /** On one side, when prices are strictly ordered by level, the sorted open orders are the
      levels' own orders in level order, whatever order the exchange listed them in. */
  lemma SortedOpenOrdersAreOwned(
      open: map<string, Live>, rows: seq<Row>, assign: map<Key, string>, snapshot: seq<OpenOrder>, side: Side)
    requires Agree(open, rows, assign) && RankedByLevel(rows)
    requires Presents(snapshot, open) && forall o :: o in snapshot ==> Usable(o)
    requires AllAssigned(open, assign, Sort(Expected(rows, side)))
    ensures Sort(Observed(snapshot, side)) == Owned(open, assign, Sort(Expected(rows, side)))
  {
    var owned := Owned(open, assign, Sort(Expected(rows, side)));
    var o := Sort(Observed(snapshot, side));
    OwnedIsStrictlySorted(open, rows, assign, side);
    forall x
      ensures x in owned <==> x in o
    {
      OwnedIsObserved(open, rows, assign, snapshot, side, x);
    }
    ObservedIs(snapshot, side);
    SortSortsAndPermutes(Observed(snapshot, side));
    SortKeepsNoDuplicates(Observed(snapshot, side));
    forall i, j | 0 <= i < j < |o|
      ensures o[i].rank < o[j].rank
    {
      assert o[i] in owned && o[j] in owned;
    }
    SameMembersSameLength(owned, o);
    StrictlySortedIsUnique(owned, o);
  }

  /** Prices strictly ordered by level make the matching return every level's true order id. */
  lemma MatchingIsRight(open: map<string, Live>, plan: ActivePlan, assign: map<Key, string>, snapshot: seq<OpenOrder>)
    requires Agree(open, plan.orders, assign) && RankedByLevel(plan.orders)
    requires Presents(snapshot, open) && Healthy(open) && snapshot != []
    ensures OpenOrderIds(Some(plan), Some(snapshot)) == Some(assign)
  {
    SnapshotIsUsable(snapshot, open);
    SideIsRight(open, plan.orders, assign, snapshot, Buy);
    SideIsRight(open, plan.orders, assign, snapshot, Sell);
    SidesMakeAssignment(MatchSide(plan.orders, snapshot, Buy).value, MatchSide(plan.orders, snapshot, Sell).value, assign);
  }

  lemma SidesMakeAssignment(buys: map<Key, string>, sells: map<Key, string>, assign: map<Key, string>)
    requires forall k :: k in buys <==> k in assign && k.side == Buy
    requires forall k :: k in sells <==> k in assign && k.side == Sell
    requires forall k :: k in buys ==> buys[k] == assign[k]
    requires forall k :: k in sells ==> sells[k] == assign[k]
    ensures buys + sells == assign
  {
  }

  lemma SideIsRight(open: map<string, Live>, rows: seq<Row>, assign: map<Key, string>, snapshot: seq<OpenOrder>, side: Side)
    requires Agree(open, rows, assign) && RankedByLevel(rows)
    requires Presents(snapshot, open) && forall o :: o in snapshot ==> Usable(o)
    ensures MatchSide(rows, snapshot, side).Some?
    ensures var m := MatchSide(rows, snapshot, side).value;
            forall k :: k in m <==> k in assign && k.side == side
    ensures var m := MatchSide(rows, snapshot, side).value;
            forall k :: k in m ==> m[k] == assign[k]
  {
    ExpectedSideIs(rows, side);
    var e := Sort(Expected(rows, side));
    SortedOpenOrdersAreOwned(open, rows, assign, snapshot, side);
    SideCoversPlan(rows, snapshot, side);
    SidesHaveDistinctItems(rows, snapshot, side);
    ZipIs(e, Sort(Observed(snapshot, side)));
  }

  // ---- the exact condition ----

  function OrderFor(id: string, l: Live): OpenOrder {
    OpenOrder(id, Some(l.side), Some(l.price), None, None, None)
  }

  /** Some listing of the given open ids, one entry each. */
  ghost function Listing(open: map<string, Live>, ids: set<string>): (s: seq<OpenOrder>)
    requires ids <= open.Keys
    ensures DistinctIds(s) && Ids(s) == ids
    ensures forall o :: o in s ==> o.id in ids && o == OrderFor(o.id, open[o.id])
  {
    if ids == {} then []
    else
      var id :| id in ids;
      var rest := Listing(open, ids - {id});
      var s := [OrderFor(id, open[id])] + rest;
      assert s[0].id == id;
      assert forall o :: o in s <==> o == s[0] || o in rest;
      assert forall x :: x in Ids(s) <==> x == id || x in Ids(rest);
      s
  }

  lemma {:induction false} ObservedCons(x: OpenOrder, s: seq<OpenOrder>, side: Side)
    requires Usable(x) && forall o :: o in s ==> Usable(o)
    ensures forall o :: o in [x] + s ==> Usable(o)
    ensures Observed([x] + s, side)
         == (if x.side.value == side then [Ranked(PriceRank(side, x.price.value), x.id)] else []) + Observed(s, side)
  {
    if s == [] {
      assert [x] + s == [x] && [x][..0] == [];
    } else {
      var n := |s| - 1;
      ObservedCons(x, s[..n], side);
      assert ([x] + s)[..n + 1] == [x] + s[..n];
    }
  }

  /** A right matching agrees with the true assignment on each side. */
  lemma RightMatchingSide(
      open: map<string, Live>, plan: ActivePlan, assign: map<Key, string>, snapshot: seq<OpenOrder>, side: Side)
    requires Agree(open, plan.orders, assign)
    requires Presents(snapshot, open) && forall o :: o in snapshot ==> Usable(o)
    requires MatchesRightly(plan, snapshot, assign)
    ensures MatchSide(plan.orders, snapshot, side).Some?
    ensures var m := MatchSide(plan.orders, snapshot, side).value;
            forall k :: k in m ==> k in assign && m[k] == assign[k]
  {
    MatchSideKeys(plan.orders, snapshot, Buy);
    MatchSideKeys(plan.orders, snapshot, Sell);
    var buys, sells := MatchSide(plan.orders, snapshot, Buy).value, MatchSide(plan.orders, snapshot, Sell).value;
    assert assign == buys + sells;
  }

  lemma MatchSideKeys(rows: seq<Row>, open: seq<OpenOrder>, side: Side)
    requires forall o :: o in open ==> Usable(o)
    ensures MatchSide(rows, open, side).Some? ==>
              forall k :: k in MatchSide(rows, open, side).value ==> k.side == side
  {
    if MatchSide(rows, open, side).Some? {
      SideCoversPlan(rows, open, side);
    }
  }

  lemma AllKeysAssigned(open: map<string, Live>, rows: seq<Row>, assign: map<Key, string>, side: Side)
    requires Agree(open, rows, assign)
    ensures AllAssigned(open, assign, Sort(Expected(rows, side)))
  {
    ExpectedSideIs(rows, side);
  }

  /** A right matching forces the sorted open orders to be the levels' own orders. */
  lemma RightMatchingIsOwned(
      open: map<string, Live>, plan: ActivePlan, assign: map<Key, string>, snapshot: seq<OpenOrder>, side: Side)
    requires Agree(open, plan.orders, assign)
    requires Presents(snapshot, open) && forall o :: o in snapshot ==> Usable(o)
    requires MatchesRightly(plan, snapshot, assign)
    requires AllAssigned(open, assign, Sort(Expected(plan.orders, side)))
    ensures Sort(Observed(snapshot, side)) == Owned(open, assign, Sort(Expected(plan.orders, side)))
  {
    RightMatchingSide(open, plan, assign, snapshot, side);
    RightSideIsOwned(open, plan.orders, assign, snapshot, side);
  }

  lemma RightSideIsOwned(open: map<string, Live>, rows: seq<Row>, assign: map<Key, string>, snapshot: seq<OpenOrder>, side: Side)
    requires DistinctKeys(rows)
    requires Presents(snapshot, open) && forall o :: o in snapshot ==> Usable(o)
    requires MatchSide(rows, snapshot, side).Some?
    requires var m := MatchSide(rows, snapshot, side).value;
             forall k :: k in m ==> k in assign && m[k] == assign[k]
    requires AllAssigned(open, assign, Sort(Expected(rows, side)))
    ensures Sort(Observed(snapshot, side)) == Owned(open, assign, Sort(Expected(rows, side)))
  {
    var e, o := Sort(Expected(rows, side)), Sort(Observed(snapshot, side));
    SidesHaveDistinctItems(rows, snapshot, side);
    ZipIs(e, o);
    ExpectedSideIs(rows, side);
    var owned := Owned(open, assign, e);
    forall i | 0 <= i < |o|
      ensures o[i] == owned[i]
    {
      SortMembership(Observed(snapshot, side), o[i]);
      ObservedIs(snapshot, side);
    }
  }

  lemma ListingWithTwoFirst(open: map<string, Live>, a: string, b: string, rest: seq<OpenOrder>)
    requires a in open && b in open && a != b
    requires DistinctIds(rest) && Ids(rest) == open.Keys - {a, b}
    requires forall o :: o in rest ==> o.id in open && o == OrderFor(o.id, open[o.id])
    ensures Presents([OrderFor(a, open[a])] + ([OrderFor(b, open[b])] + rest), open)
  {
    var oa, ob := OrderFor(a, open[a]), OrderFor(b, open[b]);
    var s := [oa] + ([ob] + rest);
    assert forall o :: o in s <==> o == oa || o == ob || o in rest;
    assert forall x :: x in Ids(s) <==> x == a || x == b || x in Ids(rest);
    forall i, j | 0 <= i < j < |s|
      ensures s[i].id != s[j].id
    {
      assert s[0].id == a && s[1].id == b;
      if j >= 2 {
        assert s[j] == rest[j - 2] && s[j].id in Ids(rest);
      }
    }
  }

  /** Two listings that differ only in which of two equal-ranked orders comes first sort differently. */
  lemma TiesKeepListingOrder(a: OpenOrder, b: OpenOrder, rest: seq<OpenOrder>, side: Side)
    requires Usable(a) && Usable(b) && forall o :: o in rest ==> Usable(o)
    requires a.side.value == side && b.side.value == side && a.id != b.id
    requires PriceRank(side, a.price.value) == PriceRank(side, b.price.value)
    ensures forall o :: o in [a] + ([b] + rest) || o in [b] + ([a] + rest) ==> Usable(o)
    ensures Sort(Observed([a] + ([b] + rest), side)) != Sort(Observed([b] + ([a] + rest), side))
  {
    ObservedCons(b, rest, side);
    ObservedCons(a, [b] + rest, side);
    ObservedCons(a, rest, side);
    ObservedCons(b, [a] + rest, side);
    var r := PriceRank(side, a.price.value);
    var ra, rb, tail := Ranked(r, a.id), Ranked(r, b.id), Observed(rest, side);
    var first, second := Observed([a] + ([b] + rest), side), Observed([b] + ([a] + rest), side);
    SortIsStable(first, r);
    SortIsStable(second, r);
    WithRankCons(ra, [rb] + tail, r);
    WithRankCons(rb, [ra] + tail, r);
    assert first == [ra] + ([rb] + tail) && second == [rb] + ([ra] + tail);
    assert WithRank(first, r)[0] == ra && WithRank(second, r)[0] == rb;
  }

  lemma OwnedIsSortedByLevel(
      open: map<string, Live>, rows: seq<Row>, assign: map<Key, string>, a: Row, b: Row)
    requires Agree(open, rows, assign)
    requires a in rows && b in rows && a.side == b.side && a.level < b.level
    requires AllAssigned(open, assign, Sort(Expected(rows, a.side)))
    requires Sorted(Owned(open, assign, Sort(Expected(rows, a.side))))
    ensures PriceRank(a.side, a.price) <= PriceRank(b.side, b.price)
  {
    var e := Sort(Expected(rows, a.side));
    var owned := Owned(open, assign, e);
    ExpectedSideIs(rows, a.side);
    var i :| 0 <= i < |e| && e[i] == Ranked(a.level as real, a.PlanKey());
    var j :| 0 <= j < |e| && e[j] == Ranked(b.level as real, b.PlanKey());
    StrictRanksGiveOrder(e, i, j);
    assert owned[i].rank <= owned[j].rank;
  }

  lemma TwoListings(open: map<string, Live>, a: string, b: string) returns (rest: seq<OpenOrder>)
    requires a in open && b in open && a != b
    ensures Presents([OrderFor(a, open[a])] + ([OrderFor(b, open[b])] + rest), open)
    ensures Presents([OrderFor(b, open[b])] + ([OrderFor(a, open[a])] + rest), open)
    ensures forall o :: o in rest ==> o.id in open && o == OrderFor(o.id, open[o.id])
  {
    rest := Listing(open, open.Keys - {a, b});
    assert open.Keys - {a, b} == open.Keys - {b, a};
    ListingWithTwoFirst(open, a, b, rest);
    ListingWithTwoFirst(open, b, a, rest);
  }

  /** Two listings that both match rightly sort to the same list. */
  lemma RightListingsSortAlike(
      open: map<string, Live>, plan: ActivePlan, assign: map<Key, string>, s: seq<OpenOrder>, t: seq<OpenOrder>, side: Side)
    requires Agree(open, plan.orders, assign)
    requires Presents(s, open) && Presents(t, open)
    requires forall o :: o in s ==> Usable(o)
    requires forall o :: o in t ==> Usable(o)
    requires MatchesRightly(plan, s, assign) && MatchesRightly(plan, t, assign)
    ensures Sort(Observed(s, side)) == Sort(Observed(t, side))
    ensures AllAssigned(open, assign, Sort(Expected(plan.orders, side)))
    ensures Sorted(Owned(open, assign, Sort(Expected(plan.orders, side))))
  {
    AllKeysAssigned(open, plan.orders, assign, side);
    RightMatchingIsOwned(open, plan, assign, s, side);
    RightMatchingIsOwned(open, plan, assign, t, side);
    SortSortsAndPermutes(Observed(s, side));
  }

  /** Two levels whose orders can be listed either way round must have strictly ordered ranks. */
  lemma RightListingsOrderTwoLevels(
      open: map<string, Live>, plan: ActivePlan, assign: map<Key, string>, a: Row, b: Row,
      oa: OpenOrder, ob: OpenOrder, rest: seq<OpenOrder>)
    requires Agree(open, plan.orders, assign)
    requires a in plan.orders && b in plan.orders && a.side == b.side && a.level < b.level
    requires Usable(oa) && Usable(ob) && forall o :: o in rest ==> Usable(o)
    requires oa.id != ob.id && oa.side == ob.side == Some(a.side)
    requires oa.price == Some(a.price) && ob.price == Some(b.price)
    requires Presents([oa] + ([ob] + rest), open) && Presents([ob] + ([oa] + rest), open)
    requires MatchesRightly(plan, [oa] + ([ob] + rest), assign) && MatchesRightly(plan, [ob] + ([oa] + rest), assign)
    ensures PriceRank(a.side, a.price) < PriceRank(b.side, b.price)
  {
    var first, second := [oa] + ([ob] + rest), [ob] + ([oa] + rest);
    RightListingsSortAlike(open, plan, assign, first, second, a.side);
    OwnedIsSortedByLevel(open, plan.orders, assign, a, b);
    if PriceRank(a.side, a.price) == PriceRank(b.side, b.price) {
      TiesKeepListingOrder(oa, ob, rest, a.side);
    }
  }

  ghost predicate MatchesRightly(plan: ActivePlan, listing: seq<OpenOrder>, assign: map<Key, string>) {
    OpenOrderIds(Some(plan), Some(listing)) == Some(assign)
  }

  lemma OrderOfLevel(open: map<string, Live>, rows: seq<Row>, assign: map<Key, string>, a: Row) returns (o: OpenOrder)
    requires Agree(open, rows, assign) && Healthy(open) && a in rows
    ensures a.PlanKey() in assign && o.id == assign[a.PlanKey()] && o.id in open && o == OrderFor(o.id, open[o.id])
    ensures Usable(o) && o.side == Some(a.side) && o.price == Some(a.price)
  {
    o := OrderFor(assign[a.PlanKey()], open[assign[a.PlanKey()]]);
  }

  lemma RightMatchingOrdersTwoLevels(
      open: map<string, Live>, plan: ActivePlan, assign: map<Key, string>, a: Row, b: Row)
    requires Agree(open, plan.orders, assign) && Healthy(open)
    requires a in plan.orders && b in plan.orders && a.side == b.side && a.level < b.level
    requires RightForEveryListing(open, plan, assign)
    ensures PriceRank(a.side, a.price) < PriceRank(b.side, b.price)
  {
    var oa := OrderOfLevel(open, plan.orders, assign, a);
    var ob := OrderOfLevel(open, plan.orders, assign, b);
    assert oa.id != ob.id by {
      assert a.PlanKey() != b.PlanKey();
    }
    var rest := TwoListings(open, oa.id, ob.id);
    ListingMatches(open, plan, assign, [oa] + ([ob] + rest));
    ListingMatches(open, plan, assign, [ob] + ([oa] + rest));
    RightListingsOrderTwoLevels(open, plan, assign, a, b, oa, ob, rest);
  }

  ghost predicate RightForEveryListing(open: map<string, Live>, plan: ActivePlan, assign: map<Key, string>) {
    forall s :: Presents(s, open) && s != [] ==> MatchesRightly(plan, s, assign)
  }

  lemma ListingMatches(open: map<string, Live>, plan: ActivePlan, assign: map<Key, string>, s: seq<OpenOrder>)
    requires RightForEveryListing(open, plan, assign) && Presents(s, open) && s != []
    ensures MatchesRightly(plan, s, assign)
  {
  }

  /** The matching is right for every order in which the exchange may list the open orders if and
      only if each side's prices are strictly ordered by level. */
  lemma MatchingIsRightExactlyWhenRanked(open: map<string, Live>, plan: ActivePlan, assign: map<Key, string>)
    requires Agree(open, plan.orders, assign) && Healthy(open)
    ensures RankedByLevel(plan.orders) <==> RightForEveryListing(open, plan, assign)
  {
    if RankedByLevel(plan.orders) {
      forall s | Presents(s, open) && s != []
        ensures MatchesRightly(plan, s, assign)
      {
        MatchingIsRight(open, plan, assign, s);
      }
    }
    if RightForEveryListing(open, plan, assign) {
      forall a, b | a in plan.orders && b in plan.orders && a.side == b.side && a.level < b.level
        ensures PriceRank(a.side, a.price) < PriceRank(b.side, b.price)
      {
        RightMatchingOrdersTwoLevels(open, plan, assign, a, b);
      }
    }
  }
}
