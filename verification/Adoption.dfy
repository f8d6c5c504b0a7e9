/** Adopting open orders as the remembered plan after a restart. */
module Adoption {
  import opened Numbers
  import opened StableSort
  import opened LadderMatching
  import opened MarketMaker

  function KeyOf(r: Row): Key {
    r.PlanKey()
  }

  function IdOf(o: OpenOrder): string {
    o.id
  }

  lemma {:induction false} ExpectedFromRows(rows: seq<Row>, side: Side)
    ensures Expected(rows, side) == MapItems(KeyOf, ExpectedRows(rows, side))
  {
    if rows != [] {
      var n := |rows| - 1;
      ExpectedFromRows(rows[..n], side);
      if rows[n].side == side {
        assert KeyOf(rows[n]) == rows[n].PlanKey();
        MapItemsAppend(KeyOf, ExpectedRows(rows[..n], side), Ranked(rows[n].level as real, rows[n]));
      } else {
        assert ExpectedRows(rows, side) == ExpectedRows(rows[..n], side);
      }
    }
  }

  lemma {:induction false} ObservedFromOrders(open: seq<OpenOrder>, side: Side)
    requires forall o :: o in open ==> Usable(o) && Adoptable(o)
    ensures Observed(open, side) == MapItems(IdOf, ObservedOrders(open, side))
  {
    if open != [] {
      var n := |open| - 1;
      assert open[n] in open;
      ObservedFromOrders(open[..n], side);
      if open[n].side.value == side {
        MapItemsAppend(IdOf, ObservedOrders(open[..n], side), Ranked(PriceRank(side, open[n].price.value), open[n]));
      } else {
        assert ObservedOrders(open, side) == ObservedOrders(open[..n], side);
      }
    }
  }

  /** The adopted rows of one side: each expected level takes the order at its place in price order. */
  lemma AdoptedSideIs(compared: seq<Row>, open: seq<OpenOrder>, side: Side)
    requires DistinctKeys(compared) && DistinctIds(open)
    requires forall o :: o in open ==> Usable(o) && Adoptable(o)
    requires AdoptSide(compared, open, side).Some?
    ensures var rows, k, o := AdoptSide(compared, open, side).value, Sort(Expected(compared, side)), Sort(Observed(open, side));
            |rows| == |k| == |o|
            && forall i :: 0 <= i < |rows| ==>
                 rows[i].PlanKey() == k[i].item && rows[i].price > 0.0 && o[i] == Ranked(PriceRank(side, rows[i].price), o[i].item)
  {
    var f, g := KeyOf, IdOf;
    var e, o := Sort(ExpectedRows(compared, side)), Sort(ObservedOrders(open, side));
    ExpectedFromRows(compared, side);
    ObservedFromOrders(open, side);
    SortMapItems(f, ExpectedRows(compared, side));
    SortMapItems(g, ObservedOrders(open, side));
    MapItemsAt(f, e);
    MapItemsAt(g, o);
    ObservedOrdersAre(open, side);
    SortedObservedOrdersArePriced(open, side);
    var rows := AdoptSide(compared, open, side).value;
    forall i | 0 <= i < |rows|
      ensures rows[i].price > 0.0 && o[i].rank == PriceRank(side, rows[i].price)
    {
      SortMembership(ObservedOrders(open, side), o[i]);
    }
  }

  lemma AdoptedSideKeys(compared: seq<Row>, open: seq<OpenOrder>, side: Side)
    requires DistinctKeys(compared) && DistinctIds(open)
    requires forall o :: o in open ==> Usable(o) && Adoptable(o)
    requires AdoptSide(compared, open, side).Some?
    ensures var rows := AdoptSide(compared, open, side).value;
            DistinctKeys(rows) && forall k :: k in PlanKeys(rows) <==> k in PlanKeys(compared) && k.side == side
  {
    var rows, e := AdoptSide(compared, open, side).value, Sort(Expected(compared, side));
    AdoptedSideIs(compared, open, side);
    ExpectedSideIs(compared, side);
    SidesHaveDistinctItems(compared, open, side);
    forall k: Key
      ensures k in PlanKeys(rows) <==> k in PlanKeys(compared) && k.side == side
    {
      if k in PlanKeys(compared) && k.side == side {
        var i :| 0 <= i < |e| && e[i] == Ranked(k.level as real, k);
        assert rows[i] in rows;
      }
      if k in PlanKeys(rows) {
        var i :| 0 <= i < |rows| && rows[i].PlanKey() == k;
        assert e[i].item == k;
      }
    }
  }

  lemma SameKeysSortAlike(a: seq<Row>, b: seq<Row>, side: Side)
    requires DistinctKeys(a) && DistinctKeys(b) && PlanKeys(a) == PlanKeys(b)
    ensures Sort(Expected(a, side)) == Sort(Expected(b, side))
  {
    var x, y := Sort(Expected(a, side)), Sort(Expected(b, side));
    ExpectedSideIs(a, side);
    ExpectedSideIs(b, side);
    SidesHaveDistinctItems(a, [], side);
    SidesHaveDistinctItems(b, [], side);
    forall r
      ensures r in x <==> r in y
    {
      if r in x {
        var i :| 0 <= i < |x| && x[i] == r;
        assert r == Ranked(r.item.level as real, r.item);
      }
      if r in y {
        var i :| 0 <= i < |y| && y[i] == r;
        assert r == Ranked(r.item.level as real, r.item);
      }
    }
    SameMembersSameLength(x, y);
    StrictlySortedIsUnique(x, y);
  }

  lemma AdoptedKeys(plan: Plan, compared: seq<Row>, open: seq<OpenOrder>)
    requires DistinctKeys(compared) && DistinctIds(open) && forall o :: o in open ==> Usable(o)
    requires Adopt(plan, compared, Some(open)).Some?
    ensures var rows := Adopt(plan, compared, Some(open)).value.orders;
            DistinctKeys(rows) && PlanKeys(rows) == PlanKeys(compared) && |rows| == |compared|
  {
    var buys, sells := AdoptSide(compared, open, Buy).value, AdoptSide(compared, open, Sell).value;
    AdoptedSideKeys(compared, open, Buy);
    AdoptedSideKeys(compared, open, Sell);
    var rows := buys + sells;
    assert forall r :: r in buys ==> r.PlanKey() in PlanKeys(buys);
    assert forall r :: r in sells ==> r.PlanKey() in PlanKeys(sells);
    assert PlanKeys(rows) == PlanKeys(buys) + PlanKeys(sells);
    forall i, j | 0 <= i < j < |rows|
      ensures rows[i].PlanKey() != rows[j].PlanKey()
    {
      if i < |buys| <= j {
        assert rows[i] in buys && rows[j] in sells;
      }
    }
    assert PlanKeys(rows) == PlanKeys(compared);
    CountKeys(rows);
    CountKeys(compared);
  }

  lemma {:induction false} CountKeys(rows: seq<Row>)
    requires DistinctKeys(rows)
    ensures |PlanKeys(rows)| == |rows|
  {
    if rows != [] {
      var n := |rows| - 1;
      CountKeys(rows[..n]);
      assert rows == rows[..n] + [rows[n]];
      assert PlanKeys(rows) == PlanKeys(rows[..n]) + {rows[n].PlanKey()};
      assert forall r :: r in rows[..n] ==> r.PlanKey() != rows[n].PlanKey();
    }
  }

  /** On one side, the order matched to an adopted level has the adopted price. */
  lemma AdoptedSideMatches(compared: seq<Row>, rows: seq<Row>, snapshot: seq<OpenOrder>, open: map<string, Live>, side: Side, r: Row)
    requires DistinctKeys(compared) && DistinctKeys(rows) && PlanKeys(rows) == PlanKeys(compared)
    requires Presents(snapshot, open) && forall o :: o in snapshot ==> Usable(o) && Adoptable(o)
    requires AdoptSide(compared, snapshot, side).Some? && r in AdoptSide(compared, snapshot, side).value
    ensures MatchSide(rows, snapshot, side).Some?
    ensures r.PlanKey() in MatchSide(rows, snapshot, side).value
    ensures var id := MatchSide(rows, snapshot, side).value[r.PlanKey()];
            id in open && open[id] == Live(r.side, r.price)
  {
    var adopted := AdoptSide(compared, snapshot, side).value;
    var k, o := Sort(Expected(rows, side)), Sort(Observed(snapshot, side));
    SameKeysSortAlike(rows, compared, side);
    AdoptedSideIs(compared, snapshot, side);
    SidesHaveDistinctItems(rows, snapshot, side);
    ZipIs(k, o);
    ExpectedSideIs(rows, side);
    var i :| 0 <= i < |adopted| && adopted[i] == r;
    SortMembership(Observed(snapshot, side), o[i]);
    ObservedIs(snapshot, side);
  }

  /** An adopted plan agrees with the exchange: every adopted row is an open order's own price, and
      the matching hands that row exactly that order. */
  lemma AdoptedPlanAgrees(plan: Plan, compared: seq<Row>, snapshot: seq<OpenOrder>, open: map<string, Live>)
    requires DistinctKeys(compared) && Presents(snapshot, open) && Healthy(open)
    requires Adopt(plan, compared, Some(snapshot)).Some?
    ensures var p := Adopt(plan, compared, Some(snapshot)).value;
            && PlanKeys(p.orders) == PlanKeys(compared) && |p.orders| == |compared|
            && OpenOrderIds(Some(p), Some(snapshot)).Some?
            && Agree(open, p.orders, OpenOrderIds(Some(p), Some(snapshot)).value)
  {
    SnapshotIsUsable(snapshot, open);
    AdoptedKeys(plan, compared, snapshot);
    var p := Adopt(plan, compared, Some(snapshot)).value;
    var buys, sells := AdoptSide(compared, snapshot, Buy).value, AdoptSide(compared, snapshot, Sell).value;
    MatchesExist(compared, p.orders, snapshot, Buy);
    MatchesExist(compared, p.orders, snapshot, Sell);
    MappingIsBijection(p, snapshot);
    var m := OpenOrderIds(Some(p), Some(snapshot)).value;
    MatchSideKeys(p.orders, snapshot, Buy);
    MatchSideKeys(p.orders, snapshot, Sell);
    forall r | r in p.orders
      ensures r.PlanKey() in m && m[r.PlanKey()] in open && open[m[r.PlanKey()]] == Live(r.side, r.price)
    {
      if r in buys {
        AdoptedSideMatches(compared, p.orders, snapshot, open, Buy, r);
      } else {
        AdoptedSideMatches(compared, p.orders, snapshot, open, Sell, r);
      }
    }
  }

  lemma MatchesExist(compared: seq<Row>, rows: seq<Row>, snapshot: seq<OpenOrder>, side: Side)
    requires DistinctKeys(compared) && DistinctKeys(rows) && PlanKeys(rows) == PlanKeys(compared) && DistinctIds(snapshot)
    requires forall o :: o in snapshot ==> Usable(o) && Adoptable(o)
    requires AdoptSide(compared, snapshot, side).Some?
    ensures MatchSide(rows, snapshot, side).Some?
  {
    SameKeysSortAlike(rows, compared, side);
    AdoptedSideIs(compared, snapshot, side);
  }
  /** What an open order is worth: its price for what is left of it, or for its amount. */
  function WorthOf(o: OpenOrder): Option<real> {
    if o.price.None? then None
    else if o.remaining.Some? then Some(Product(o.price.value, o.remaining.value))
    else if o.amount.Some? then Some(Product(o.price.value, o.amount.value))
    else None
  }

  /** The row is one of the open orders, at the order's own price and worth; an order that reports neither an
      amount nor a rest is given the planned quote. */
  ghost predicate IsOpenOrder(r: Row, open: seq<OpenOrder>, compared: seq<Row>) {
    exists o :: o in open && o.side == Some(r.side) && o.price == Some(r.price)
                && (if WorthOf(o).Some? then r.quote == WorthOf(o).value else exists e :: e in compared && e.PlanKey() == r.PlanKey() && r.quote == e.quote)
  }

  lemma {:induction false} ExpectedRowsAre(rows: seq<Row>, side: Side)
    ensures forall x :: x in ExpectedRows(rows, side) ==> x.item in rows && x.item.side == side
  {
    if rows != [] {
      var n := |rows| - 1;
      assert rows[n] in rows;
      ExpectedRowsAre(rows[..n], side);
    }
  }

  lemma AdoptedRowIsOpen(e: Row, o: OpenOrder, open: seq<OpenOrder>, compared: seq<Row>)
    requires o in open && e in compared && o.side == Some(e.side) && o.price.Some?
    ensures IsOpenOrder(AdoptedRow(e, o), open, compared)
  {
    assert AdoptedRow(e, o).PlanKey() == e.PlanKey();
  }

  lemma ZippedPairIs(compared: seq<Row>, open: seq<OpenOrder>, side: Side, e: Ranked<Row>, o: Ranked<OpenOrder>)
    requires forall x :: x in open ==> Adoptable(x)
    requires e in Sort(ExpectedRows(compared, side)) && o in Sort(ObservedOrders(open, side))
    ensures o.item in open && e.item in compared && o.item.side == Some(e.item.side) && o.item.price.Some?
  {
    SortMembership(ExpectedRows(compared, side), e);
    SortMembership(ObservedOrders(open, side), o);
    ExpectedRowsAre(compared, side);
    ObservedOrdersAre(open, side);
  }

  lemma AdoptedSideIsOpen(compared: seq<Row>, open: seq<OpenOrder>, side: Side, r: Row)
    requires forall o :: o in open ==> Adoptable(o)
    requires AdoptSide(compared, open, side).Some? && r in AdoptSide(compared, open, side).value
    ensures IsOpenOrder(r, open, compared)
  {
    var e, o := Sort(ExpectedRows(compared, side)), Sort(ObservedOrders(open, side));
    SortedObservedOrdersArePriced(open, side);
    var i :| 0 <= i < |e| && ZipRows(e, o)[i] == r;
    ZippedPairIs(compared, open, side, e[i], o[i]);
    AdoptedRowIsOpen(e[i].item, o[i].item, open, compared);
  }

  /** Every row of an adopted plan is an open order at its own price and worth. */
  lemma AdoptedRowsAreOpenOrders(plan: Plan, compared: seq<Row>, open: seq<OpenOrder>, r: Row)
    requires Adopt(plan, compared, Some(open)).Some? && r in Adopt(plan, compared, Some(open)).value.orders
    ensures IsOpenOrder(r, open, compared)
  {
    if r in AdoptSide(compared, open, Buy).value {
      AdoptedSideIsOpen(compared, open, Buy, r);
    } else {
      AdoptedSideIsOpen(compared, open, Sell, r);
    }
  }
}
