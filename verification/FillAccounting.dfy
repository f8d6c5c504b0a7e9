/** Incremental fill accounting of an Auto Buy/Sell task over sliding windows of trades and orders. */
module FillAccounting {
  import opened Numbers

  /** The task counts fills in base and in quote, by the same rules. */
  datatype Measure = Base | Quote

  /** A trade as normalised by the task: contract size applied, cost filled in. */
  datatype Trade = Trade(id: string, order: string, base: real, quote: real) {
    function Amount(m: Measure): real {
      if m == Base then base else quote
    }
  }

  /** An open or closed order row with the fill it reports. */
  datatype OrderRow = OrderRow(id: string, base: real, quote: real, closed: bool, remaining: real) {
    function Amount(m: Measure): real {
      if m == Base then base else quote
    }

    predicate FinalFill() {
      (base > 0.0 || quote > 0.0) && (closed || remaining <= 0.0)
    }
  }

  /** What one refresh reads from the exchange: open then closed orders, and recent trades. */
  datatype Window = Window(orders: seq<OrderRow>, trades: seq<Trade>)

  datatype Targets = Targets(base: real, quote: real) {
    function Of(m: Measure): real {
      if m == Base then base else quote
    }
  }

  datatype Account = Account(base: real, quote: real, placed: seq<string>, knownTrades: set<string>, knownFinal: set<string>) {
    function Filled(m: Measure): real {
      if m == Base then base else quote
    }
  }

  // ---- the sums one refresh forms ----

  function TradeFill(trades: seq<Trade>, order: string, m: Measure): real {
    if trades == [] then 0.0
    else
      var last := trades[|trades| - 1];
      TradeFill(trades[..|trades| - 1], order, m) + (if last.order == order then last.Amount(m) else 0.0)
  }

  function NewTrades(trades: seq<Trade>, tracked: set<string>, known: set<string>): seq<Trade> {
    if trades == [] then []
    else
      var last := trades[|trades| - 1];
      NewTrades(trades[..|trades| - 1], tracked, known)
      + (if last.order in tracked && last.id != "" && last.id !in known then [last] else [])
  }

  function Total(trades: seq<Trade>, m: Measure): real {
    if trades == [] then 0.0 else Total(trades[..|trades| - 1], m) + trades[|trades| - 1].Amount(m)
  }

  function OrderFill(rows: seq<OrderRow>, order: string, m: Measure): real {
    if rows == [] then 0.0
    else
      var last, before := rows[|rows| - 1], OrderFill(rows[..|rows| - 1], order, m);
      if last.id == order then Max(before, last.Amount(m)) else before
  }

  predicate NewlyFinal(r: OrderRow, tracked: set<string>, knownFinal: set<string>) {
    r.id in tracked && r.FinalFill() && r.id !in knownFinal
  }

  /** What newly final orders report beyond the trades in the window. */
  function Excess(rows: seq<OrderRow>, trades: seq<Trade>, tracked: set<string>, knownFinal: set<string>, m: Measure): real {
    if rows == [] then 0.0
    else
      var last := rows[|rows| - 1];
      Excess(rows[..|rows| - 1], trades, tracked, knownFinal, m)
      + (if NewlyFinal(last, tracked, knownFinal) then Max(0.0, last.Amount(m) - TradeFill(trades, last.id, m)) else 0.0)
  }

  function WindowSum(placed: seq<string>, w: Window, m: Measure): real {
    if placed == [] then 0.0
    else
      var last := placed[|placed| - 1];
      WindowSum(placed[..|placed| - 1], w, m) + Max(TradeFill(w.trades, last, m), OrderFill(w.orders, last, m))
  }

  function Tracked(placed: seq<string>): set<string> {
    set id | id in placed
  }

  function Capped(target: real, x: real): real {
    if target > 0.0 then Min(target, x) else x
  }

  predicate Bootstraps(a: Account) {
    a.knownFinal == {} && (a.base > 0.0 || a.quote > 0.0)
  }

  function NextFilled(a: Account, w: Window, t: Targets, m: Measure): real {
    var tracked := Tracked(a.placed);
    var excess := if Bootstraps(a) then 0.0 else Excess(w.orders, w.trades, tracked, a.knownFinal, m);
    Capped(t.Of(m), Max(a.Filled(m) + Total(NewTrades(w.trades, tracked, a.knownTrades), m) + excess, WindowSum(a.placed, w, m)))
  }

  function TrackedTradeIds(trades: seq<Trade>, tracked: set<string>): set<string> {
    set t | t in trades && t.order in tracked && t.id != "" :: t.id
  }

  function FinalIds(rows: seq<OrderRow>, tracked: set<string>): set<string> {
    set r | r in rows && r.id in tracked && r.FinalFill() :: r.id
  }

  /** One refresh of the account. A task that never placed an order is reset to zero. */
  function Refreshed(a: Account, w: Window, t: Targets): Account {
    if a.placed == [] then a.(base := 0.0, quote := 0.0)
    else
      var tracked := Tracked(a.placed);
      Account(NextFilled(a, w, t, Base), NextFilled(a, w, t, Quote), a.placed,
              a.knownTrades + TrackedTradeIds(w.trades, tracked), a.knownFinal + FinalIds(w.orders, tracked))
  }

  // ---- facts about the sums ----

  lemma {:induction false} TotalConcat(a: seq<Trade>, b: seq<Trade>, m: Measure)
    ensures Total(a + b, m) == Total(a, m) + Total(b, m)
  {
    if b == [] {
      assert a + b == a;
    } else {
      TotalConcat(a, b[..|b| - 1], m);
      assert (a + b)[..|a + b| - 1] == a + b[..|b| - 1];
    }
  }

  lemma {:induction false} TradeFillConcat(a: seq<Trade>, b: seq<Trade>, order: string, m: Measure)
    ensures TradeFill(a + b, order, m) == TradeFill(a, order, m) + TradeFill(b, order, m)
  {
    if b == [] {
      assert a + b == a;
    } else {
      TradeFillConcat(a, b[..|b| - 1], order, m);
      assert (a + b)[..|a + b| - 1] == a + b[..|b| - 1];
    }
  }

  ghost predicate Nonnegative(trades: seq<Trade>) {
    forall t :: t in trades ==> t.base >= 0.0 && t.quote >= 0.0
  }

  ghost predicate DistinctTrades(trades: seq<Trade>) {
    forall i, j :: 0 <= i < j < |trades| ==> trades[i].id != trades[j].id
  }

  lemma {:induction false} TradeFillIsNonnegative(trades: seq<Trade>, order: string, m: Measure)
    requires Nonnegative(trades)
    ensures TradeFill(trades, order, m) >= 0.0
  {
    if trades != [] {
      assert trades[|trades| - 1] in trades;
      TradeFillIsNonnegative(trades[..|trades| - 1], order, m);
    }
  }

  /** Distinct trades that all occur in another list fill at most as much. */
  lemma {:induction false} SubsetFillsLess(xs: seq<Trade>, ys: seq<Trade>, order: string, m: Measure)
    requires Nonnegative(ys) && DistinctTrades(xs)
    requires forall t :: t in xs && t.order == order ==> t in ys
    ensures TradeFill(xs, order, m) <= TradeFill(ys, order, m)
  {
    if xs == [] {
      TradeFillIsNonnegative(ys, order, m);
    } else {
      var n := |xs| - 1;
      var x := xs[n];
      assert forall t :: t in xs[..n] ==> t in xs && t.id != x.id;
      if x.order != order {
        SubsetFillsLess(xs[..n], ys, order, m);
      } else {
        assert x in xs;
        var k :| 0 <= k < |ys| && ys[k] == x;
        var rest := ys[..k] + ys[k + 1..];
        FillWithout(ys, k, order, m);
        forall t | t in xs[..n] && t.order == order
          ensures t in rest
        {
          OtherStays(ys, k, t);
        }
        SubsetFillsLess(xs[..n], rest, order, m);
      }
    }
  }

  lemma OtherStays(ys: seq<Trade>, k: nat, t: Trade)
    requires k < |ys| && t in ys && t != ys[k]
    ensures t in ys[..k] + ys[k + 1..]
  {
  }

  lemma FillWithout(ys: seq<Trade>, k: nat, order: string, m: Measure)
    requires k < |ys| && ys[k].order == order
    ensures TradeFill(ys, order, m) == TradeFill(ys[..k] + ys[k + 1..], order, m) + ys[k].Amount(m)
  {
    assert ys == ys[..k] + ([ys[k]] + ys[k + 1..]);
    TradeFillConcat(ys[..k], [ys[k]] + ys[k + 1..], order, m);
    TradeFillConcat([ys[k]], ys[k + 1..], order, m);
    TradeFillConcat(ys[..k], ys[k + 1..], order, m);
    assert [ys[k]][..0] == [];
  }

  // ---- splitting a total by order ----

  function SumByOrder(placed: seq<string>, trades: seq<Trade>, m: Measure): real {
    if placed == [] then 0.0
    else SumByOrder(placed[..|placed| - 1], trades, m) + TradeFill(trades, placed[|placed| - 1], m)
  }

  ghost predicate DistinctOrders(placed: seq<string>) {
    forall i, j :: 0 <= i < j < |placed| ==> placed[i] != placed[j]
  }

  lemma {:induction false} SumByOrderOfOne(placed: seq<string>, trades: seq<Trade>, t: Trade, m: Measure)
    requires DistinctOrders(placed)
    ensures SumByOrder(placed, trades + [t], m) == SumByOrder(placed, trades, m) + (if t.order in placed then t.Amount(m) else 0.0)
  {
    if placed != [] {
      var n := |placed| - 1;
      SumByOrderOfOne(placed[..n], trades, t, m);
      assert (trades + [t])[..|trades|] == trades;
      assert placed == placed[..n] + [placed[n]];
    }
  }

  lemma {:induction false} SumByOrderOfNone(placed: seq<string>, m: Measure)
    ensures SumByOrder(placed, [], m) == 0.0
  {
    if placed != [] {
      SumByOrderOfNone(placed[..|placed| - 1], m);
    }
  }

  /** Trades of placed orders, summed order by order, are all the trades. */
  lemma {:induction false} SumByOrderIsTotal(placed: seq<string>, trades: seq<Trade>, m: Measure)
    requires DistinctOrders(placed) && forall t :: t in trades ==> t.order in placed
    ensures SumByOrder(placed, trades, m) == Total(trades, m)
  {
    if trades == [] {
      SumByOrderOfNone(placed, m);
    } else {
      var n := |trades| - 1;
      assert trades == trades[..n] + [trades[n]];
      SumByOrderIsTotal(placed, trades[..n], m);
      SumByOrderOfOne(placed, trades[..n], trades[n], m);
    }
  }

  // ---- the history a run of windows reveals ----

  function IdsOf(trades: seq<Trade>): set<string> {
    set t | t in trades :: t.id
  }

  /** Trade ids are non-empty, name one trade for good, and occur once in a window. */
  ghost predicate WellIdentified(w: Window, observed: seq<Trade>) {
    && DistinctTrades(w.trades)
    && (forall t :: t in w.trades ==> t.id != "")
    && (forall t, u :: t in w.trades && u in observed && t.id == u.id ==> t == u)
  }

  ghost predicate NonnegativeWindow(w: Window) {
    Nonnegative(w.trades) && forall r :: r in w.orders ==> r.base >= 0.0 && r.quote >= 0.0
  }

  function Observe(a: Account, observed: seq<Trade>, w: Window): seq<Trade> {
    observed + NewTrades(w.trades, Tracked(a.placed), a.knownTrades)
  }

  lemma {:induction false} NewTradesAre(trades: seq<Trade>, tracked: set<string>, known: set<string>)
    ensures forall t :: t in NewTrades(trades, tracked, known) <==> t in trades && t.order in tracked && t.id != "" && t.id !in known
    ensures DistinctTrades(trades) ==> DistinctTrades(NewTrades(trades, tracked, known))
  {
    if trades != [] {
      var n := |trades| - 1;
      NewTradesAre(trades[..n], tracked, known);
      assert trades == trades[..n] + [trades[n]];
      if DistinctTrades(trades) {
        assert forall t :: t in trades[..n] ==> t.id != trades[n].id;
      }
    }
  }

  ghost predicate Invariant(a: Account, observed: seq<Trade>, t: Targets) {
    && DistinctOrders(a.placed)
    && a.knownTrades == IdsOf(observed) && DistinctTrades(observed) && Nonnegative(observed)
    && (forall x :: x in observed ==> x.order in a.placed)
    && forall m: Measure :: InRange(a, observed, t, m)
  }

  /** The running fill is nonnegative, never above a positive target, never below the capped sum of
      the distinct trades observed. */
  ghost predicate InRange(a: Account, observed: seq<Trade>, t: Targets, m: Measure) {
    && 0.0 <= a.Filled(m)
    && (t.Of(m) > 0.0 ==> a.Filled(m) <= t.Of(m))
    && Capped(t.Of(m), Total(observed, m)) <= a.Filled(m)
    && (a.placed == [] ==> a.Filled(m) == 0.0)
  }

  lemma {:induction false} TotalIsNonnegative(trades: seq<Trade>, m: Measure)
    requires Nonnegative(trades)
    ensures Total(trades, m) >= 0.0
  {
    if trades != [] {
      assert trades[|trades| - 1] in trades;
      TotalIsNonnegative(trades[..|trades| - 1], m);
    }
  }

  lemma {:induction false} ExcessIsNonnegative(rows: seq<OrderRow>, trades: seq<Trade>, tracked: set<string>, knownFinal: set<string>, m: Measure)
    ensures Excess(rows, trades, tracked, knownFinal, m) >= 0.0
  {
    if rows != [] {
      ExcessIsNonnegative(rows[..|rows| - 1], trades, tracked, knownFinal, m);
    }
  }

  lemma ObserveKeepsHistory(a: Account, observed: seq<Trade>, w: Window, t: Targets)
    requires Invariant(a, observed, t) && WellIdentified(w, observed) && NonnegativeWindow(w)
    ensures var seen := Observe(a, observed, w);
            && DistinctTrades(seen) && Nonnegative(seen)
            && IdsOf(seen) == a.knownTrades + TrackedTradeIds(w.trades, Tracked(a.placed))
            && (forall x :: x in seen ==> x.order in a.placed)
            && (forall x :: x in w.trades && x.order in a.placed ==> x in seen)
  {
    var added := NewTrades(w.trades, Tracked(a.placed), a.knownTrades);
    NewTradesAre(w.trades, Tracked(a.placed), a.knownTrades);
    var seen := Observe(a, observed, w);
    forall i, j | 0 <= i < j < |seen|
      ensures seen[i].id != seen[j].id
    {
      if i < |observed| <= j {
        assert seen[i] in observed && seen[j] in added;
      }
    }
    forall x | x in w.trades && x.order in a.placed
      ensures x in seen
    {
      if x.id in a.knownTrades {
        var u :| u in observed && u.id == x.id;
      } else {
        assert x in added;
      }
    }
    forall id
      ensures id in IdsOf(seen) <==> id in a.knownTrades + TrackedTradeIds(w.trades, Tracked(a.placed))
    {
      if id in TrackedTradeIds(w.trades, Tracked(a.placed)) {
        var x :| x in w.trades && x.order in a.placed && x.id == id;
      }
    }
  }

  lemma ObservedTotal(a: Account, observed: seq<Trade>, w: Window, m: Measure)
    ensures Total(Observe(a, observed, w), m)
         == Total(observed, m) + Total(NewTrades(w.trades, Tracked(a.placed), a.knownTrades), m)
  {
    TotalConcat(observed, NewTrades(w.trades, Tracked(a.placed), a.knownTrades), m);
  }

  lemma NewTotalIsNonnegative(a: Account, w: Window, m: Measure)
    requires NonnegativeWindow(w)
    ensures Total(NewTrades(w.trades, Tracked(a.placed), a.knownTrades), m) >= 0.0
  {
    NewTradesAre(w.trades, Tracked(a.placed), a.knownTrades);
    TotalIsNonnegative(NewTrades(w.trades, Tracked(a.placed), a.knownTrades), m);
  }

  lemma RefreshKeepsRange(a: Account, observed: seq<Trade>, w: Window, t: Targets, m: Measure)
    requires Invariant(a, observed, t) && WellIdentified(w, observed) && NonnegativeWindow(w)
    ensures InRange(Refreshed(a, w, t), Observe(a, observed, w), t, m)
    ensures Refreshed(a, w, t).Filled(m) >= a.Filled(m)
  {
    assert InRange(a, observed, t, m);
    ObservedTotal(a, observed, w, m);
    NewTotalIsNonnegative(a, w, m);
    ExcessIsNonnegative(w.orders, w.trades, Tracked(a.placed), a.knownFinal, m);
    if a.placed == [] {
      NewTradesAre(w.trades, Tracked(a.placed), a.knownTrades);
      assert NewTrades(w.trades, Tracked(a.placed), a.knownTrades) == [];
      assert observed == [];
    }
  }

  /** With no assumption beyond nonnegative amounts and unique non-empty trade ids: the fill is
      monotone, never above a positive target, and never below the capped sum of distinct trades. */
  lemma RefreshIsSafe(a: Account, observed: seq<Trade>, w: Window, t: Targets)
    requires Invariant(a, observed, t) && WellIdentified(w, observed) && NonnegativeWindow(w)
    ensures Invariant(Refreshed(a, w, t), Observe(a, observed, w), t)
    ensures forall m: Measure :: Refreshed(a, w, t).Filled(m) >= a.Filled(m)
  {
    ObserveKeepsHistory(a, observed, w, t);
    forall m: Measure
      ensures InRange(Refreshed(a, w, t), Observe(a, observed, w), t, m)
      ensures Refreshed(a, w, t).Filled(m) >= a.Filled(m)
    {
      RefreshKeepsRange(a, observed, w, t, m);
    }
    if a.placed == [] {
      assert TrackedTradeIds(w.trades, Tracked(a.placed)) == {};
    }
  }

  // ---- exactness ----

  ghost predicate Exact(a: Account, observed: seq<Trade>, t: Targets, m: Measure) {
    a.Filled(m) == Capped(t.Of(m), Total(observed, m))
  }

  /** An order's trades are all in the window in which it is first seen final. */
  ghost predicate TradesArrived(a: Account, w: Window, seen: seq<Trade>) {
    forall r, x :: r in w.orders && NewlyFinal(r, Tracked(a.placed), a.knownFinal) && x in seen && x.order == r.id ==> x in w.trades
  }

  /** No order row reports more than the trades observed so far for that order. */
  ghost predicate ReportsObserved(a: Account, w: Window, seen: seq<Trade>) {
    forall r, m: Measure :: r in w.orders && r.id in a.placed ==> r.Amount(m) <= TradeFill(seen, r.id, m)
  }

  lemma {:induction false} OrderFillIsObserved(rows: seq<OrderRow>, seen: seq<Trade>, order: string, m: Measure)
    requires Nonnegative(seen) && forall r :: r in rows && r.id == order ==> r.Amount(m) <= TradeFill(seen, order, m)
    ensures OrderFill(rows, order, m) <= TradeFill(seen, order, m)
  {
    if rows == [] {
      TradeFillIsNonnegative(seen, order, m);
    } else {
      assert rows[|rows| - 1] in rows;
      OrderFillIsObserved(rows[..|rows| - 1], seen, order, m);
    }
  }

  ghost predicate WindowIsCovered(placed: seq<string>, w: Window, seen: seq<Trade>) {
    forall o, m: Measure :: o in placed ==> TradeFill(w.trades, o, m) <= TradeFill(seen, o, m) && OrderFill(w.orders, o, m) <= TradeFill(seen, o, m)
  }

  lemma {:induction false} WindowSumIsCovered(placed: seq<string>, w: Window, seen: seq<Trade>, m: Measure)
    requires WindowIsCovered(placed, w, seen)
    ensures WindowSum(placed, w, m) <= SumByOrder(placed, seen, m)
  {
    if placed != [] {
      var n := |placed| - 1;
      assert placed[n] in placed;
      WindowSumIsCovered(placed[..n], w, seen, m);
    }
  }

  lemma {:induction false} ArrivedTradesLeaveNoExcess(rows: seq<OrderRow>, w: Window, a: Account, seen: seq<Trade>, m: Measure)
    requires Nonnegative(w.trades) && DistinctTrades(seen)
    requires forall r :: r in rows ==> r in w.orders
    requires TradesArrived(a, w, seen) && ReportsObserved(a, w, seen)
    ensures Excess(rows, w.trades, Tracked(a.placed), a.knownFinal, m) == 0.0
  {
    if rows != [] {
      var last := rows[|rows| - 1];
      assert last in rows;
      ArrivedTradesLeaveNoExcess(rows[..|rows| - 1], w, a, seen, m);
      if NewlyFinal(last, Tracked(a.placed), a.knownFinal) {
        SubsetFillsLess(seen, w.trades, last.id, m);
        assert last.Amount(m) <= TradeFill(seen, last.id, m);
      }
    }
  }

  lemma WindowIsObserved(a: Account, observed: seq<Trade>, w: Window, t: Targets, m: Measure)
    requires Invariant(a, observed, t) && WellIdentified(w, observed) && NonnegativeWindow(w)
    requires ReportsObserved(a, w, Observe(a, observed, w))
    ensures WindowSum(a.placed, w, m) <= Total(Observe(a, observed, w), m)
  {
    var seen := Observe(a, observed, w);
    ObserveKeepsHistory(a, observed, w, t);
    forall o, k: Measure | o in a.placed
      ensures TradeFill(w.trades, o, k) <= TradeFill(seen, o, k) && OrderFill(w.orders, o, k) <= TradeFill(seen, o, k)
    {
      SubsetFillsLess(w.trades, seen, o, k);
      OrderFillIsObserved(w.orders, seen, o, k);
    }
    WindowSumIsCovered(a.placed, w, seen, m);
    SumByOrderIsTotal(a.placed, seen, m);
  }

  lemma CappedStepIsExact(target: real, s: real, added: real, excess: real, windowSum: real)
    requires added >= 0.0 && excess >= 0.0
    ensures Capped(target, Max(Capped(target, s) + added + excess, windowSum)) == Capped(target, s + added) <==>
            0.0 < target <= s + added || (excess == 0.0 && windowSum <= s + added)
  {
  }

  lemma RefreshedFill(a: Account, w: Window, t: Targets, m: Measure)
    requires a.placed != []
    ensures Refreshed(a, w, t).Filled(m) == NextFilled(a, w, t, m)
  {
  }

  /** The exact condition for one refresh of an exact account: it stays exact if and only if the
      target is reached anyway, or nothing is credited beyond the distinct trades. */
  lemma RefreshIsExactExactlyWhen(a: Account, observed: seq<Trade>, w: Window, t: Targets, m: Measure)
    requires NonnegativeWindow(w) && a.placed != [] && Exact(a, observed, t, m)
    ensures Exact(Refreshed(a, w, t), Observe(a, observed, w), t, m) <==>
            || 0.0 < t.Of(m) <= Total(Observe(a, observed, w), m)
            || ((Bootstraps(a) || Excess(w.orders, w.trades, Tracked(a.placed), a.knownFinal, m) == 0.0)
                && WindowSum(a.placed, w, m) <= Total(Observe(a, observed, w), m))
  {
    RefreshedFill(a, w, t, m);
    ObservedTotal(a, observed, w, m);
    NewTotalIsNonnegative(a, w, m);
    ExcessIsNonnegative(w.orders, w.trades, Tracked(a.placed), a.knownFinal, m);
    CappedStepIsExact(t.Of(m), Total(observed, m), Total(NewTrades(w.trades, Tracked(a.placed), a.knownTrades), m),
                      if Bootstraps(a) then 0.0 else Excess(w.orders, w.trades, Tracked(a.placed), a.knownFinal, m),
                      WindowSum(a.placed, w, m));
  }

  /** Incremental accounting refines the sum of distinct trades: when order rows never report more
      than the trades observed and an order's trades are in the window in which it is first final,
      the fill is exactly the capped sum of the distinct tracked trades. */
  lemma RefreshIsExact(a: Account, observed: seq<Trade>, w: Window, t: Targets, m: Measure)
    requires Invariant(a, observed, t) && WellIdentified(w, observed) && NonnegativeWindow(w)
    requires TradesArrived(a, w, Observe(a, observed, w)) && ReportsObserved(a, w, Observe(a, observed, w))
    requires Exact(a, observed, t, m)
    ensures Exact(Refreshed(a, w, t), Observe(a, observed, w), t, m)
  {
    RefreshKeepsRange(a, observed, w, t, m);
    if a.placed == [] {
      NewTradesAre(w.trades, Tracked(a.placed), a.knownTrades);
      assert NewTrades(w.trades, Tracked(a.placed), a.knownTrades) == [] && observed == [];
    } else {
      ObserveKeepsHistory(a, observed, w, t);
      ArrivedTradesLeaveNoExcess(w.orders, w, a, Observe(a, observed, w), m);
      WindowIsObserved(a, observed, w, t, m);
      RefreshIsExactExactlyWhen(a, observed, w, t, m);
    }
  }

  // ---- whole runs ----

  datatype Event = Place(order: string) | Read(window: Window)

  const NEW_ACCOUNT := Account(0.0, 0.0, [], {}, {})

  function Placed(a: Account, order: string): Account {
    if order in a.placed then a else a.(placed := a.placed + [order])
  }

  /** The account and the distinct tracked trades observed after a run of events. */
  function Run(events: seq<Event>, t: Targets): (Account, seq<Trade>) {
    if events == [] then (NEW_ACCOUNT, [])
    else
      var (a, observed) := Run(events[..|events| - 1], t);
      match events[|events| - 1]
      case Place(order) => (Placed(a, order), observed)
      case Read(w) => (Refreshed(a, w, t), Observe(a, observed, w))
  }

  ghost predicate WellReported(events: seq<Event>, t: Targets) {
    events == [] ||
    (WellReported(events[..|events| - 1], t)
     && var last := events[|events| - 1];
        last.Read? ==> WellIdentified(last.window, Run(events[..|events| - 1], t).1) && NonnegativeWindow(last.window))
  }

  /** In every window, orders report at most the observed trades and final orders bring theirs along. */
  ghost predicate NothingArrivesLate(events: seq<Event>, t: Targets) {
    events == [] ||
    (NothingArrivesLate(events[..|events| - 1], t)
     && var (a, observed) := Run(events[..|events| - 1], t);
        var last := events[|events| - 1];
        last.Read? ==> TradesArrived(a, last.window, Observe(a, observed, last.window))
                       && ReportsObserved(a, last.window, Observe(a, observed, last.window)))
  }

  /** After any run of placements and sliding windows the fill is in range, and a further event never
      lowers it. */
  lemma {:induction false} RunIsSafe(events: seq<Event>, t: Targets)
    requires WellReported(events, t)
    ensures Invariant(Run(events, t).0, Run(events, t).1, t)
    ensures events != [] ==> forall m: Measure :: Run(events[..|events| - 1], t).0.Filled(m) <= Run(events, t).0.Filled(m)
  {
    if events != [] {
      var (a, observed) := Run(events[..|events| - 1], t);
      var last := events[|events| - 1];
      RunIsSafe(events[..|events| - 1], t);
      match last
      case Place(order) =>
        forall m: Measure
          ensures InRange(Placed(a, order), observed, t, m)
        {
          assert InRange(a, observed, t, m);
        }
      case Read(w) => RefreshIsSafe(a, observed, w, t);
    } else {
      forall m: Measure
        ensures InRange(NEW_ACCOUNT, [], t, m)
      {
      }
    }
  }

  /** After any run in which nothing arrives late, the fill is the capped sum of distinct trades. */
  lemma {:induction false} RunIsExact(events: seq<Event>, t: Targets, m: Measure)
    requires WellReported(events, t) && NothingArrivesLate(events, t)
    ensures Exact(Run(events, t).0, Run(events, t).1, t, m)
  {
    if events != [] {
      var (a, observed) := Run(events[..|events| - 1], t);
      var last := events[|events| - 1];
      RunIsSafe(events[..|events| - 1], t);
      RunIsExact(events[..|events| - 1], t, m);
      if last.Read? {
        RefreshIsExact(a, observed, last.window, t, m);
      }
    }
  }

  const LATE_ORDER := OrderRow("order", 1.0, 10.0, true, 0.0)
  const LATE_TRADE := Trade("trade", "order", 1.0, 10.0)
  const NO_TARGET := Targets(0.0, 0.0)

  lemma OneTrade(t: Trade, order: string, tracked: set<string>, known: set<string>, m: Measure)
    ensures TradeFill([t], order, m) == (if t.order == order then t.Amount(m) else 0.0)
    ensures NewTrades([t], tracked, known) == if t.order in tracked && t.id != "" && t.id !in known then [t] else []
    ensures Total([t], m) == t.Amount(m)
  {
  }

  lemma OneOrder(r: OrderRow, trades: seq<Trade>, order: string, tracked: set<string>, known: set<string>, m: Measure)
    ensures OrderFill([r], order, m) == if r.id == order then Max(0.0, r.Amount(m)) else 0.0
    ensures Excess([r], trades, tracked, known, m)
         == if NewlyFinal(r, tracked, known) then Max(0.0, r.Amount(m) - TradeFill(trades, r.id, m)) else 0.0
  {
  }

  lemma OnePlaced(order: string, w: Window, m: Measure)
    ensures WindowSum([order], w, m) == Max(TradeFill(w.trades, order, m), OrderFill(w.orders, order, m))
  {
  }

  lemma FinalOrderIsCounted(a: Account)
    requires a == NEW_ACCOUNT.(placed := ["order"])
    ensures Refreshed(a, Window([LATE_ORDER], []), NO_TARGET) == Account(1.0, 10.0, ["order"], {}, {"order"})
    ensures Observe(a, [], Window([LATE_ORDER], [])) == []
  {
    var w := Window([LATE_ORDER], []);
    var tracked := Tracked(a.placed);
    forall m: Measure
      ensures NextFilled(a, w, NO_TARGET, m) == LATE_ORDER.Amount(m)
    {
      OneOrder(LATE_ORDER, [], "order", tracked, {}, m);
      OnePlaced("order", w, m);
    }
    assert FinalIds(w.orders, tracked) == {"order"};
    assert TrackedTradeIds(w.trades, tracked) == {};
  }

  lemma LateTradeIsAdded(a: Account)
    requires a == Account(1.0, 10.0, ["order"], {}, {"order"})
    ensures Refreshed(a, Window([], [LATE_TRADE]), NO_TARGET).base == 2.0
    ensures Observe(a, [], Window([], [LATE_TRADE])) == [LATE_TRADE]
  {
    var w := Window([], [LATE_TRADE]);
    OneTrade(LATE_TRADE, "order", Tracked(a.placed), {}, Base);
    OnePlaced("order", w, Base);
    assert NextFilled(a, w, NO_TARGET, Base) == 2.0;
  }

  /** The condition is needed: a trade that arrives after its order was counted as final is counted
      a second time. */
  lemma LateTradeIsCountedTwice()
    ensures var events := [Place("order"), Read(Window([LATE_ORDER], [])), Read(Window([], [LATE_TRADE]))];
            && Total(Run(events, NO_TARGET).1, Base) == 1.0
            && Run(events, NO_TARGET).0.Filled(Base) == 2.0
  {
    var e1, e2, e3 := Place("order"), Read(Window([LATE_ORDER], [])), Read(Window([], [LATE_TRADE]));
    var a := Placed(NEW_ACCOUNT, "order");
    assert a == NEW_ACCOUNT.(placed := ["order"]);
    FinalOrderIsCounted(a);
    LateTradeIsAdded(Refreshed(a, e2.window, NO_TARGET));
    assert [e1][..0] == [] && [e1, e2][..1] == [e1] && [e1, e2, e3][..2] == [e1, e2];
    RunOfOne(e1);
    RunOfNext([e1], e2);
    RunOfNext([e1, e2], e3);
    OneTrade(LATE_TRADE, "order", {}, {}, Base);
  }

  lemma RunOfOne(e: Event)
    requires e.Place?
    ensures Run([e], NO_TARGET) == (Placed(NEW_ACCOUNT, e.order), [])
  {
  }

  lemma RunOfNext(events: seq<Event>, e: Event)
    requires e.Read?
    ensures var (a, observed) := Run(events, NO_TARGET);
            Run(events + [e], NO_TARGET) == (Refreshed(a, e.window, NO_TARGET), Observe(a, observed, e.window))
  {
  }
  // ---- one order ----

  lemma OneOrderSums(placed: seq<string>, w: Window, row: OrderRow, known: set<string>, m: Measure)
    requires placed == [row.id] && w == Window([row], [])
    ensures WindowSum(placed, w, m) == Max(0.0, Max(0.0, row.Amount(m)))
    ensures Excess(w.orders, w.trades, Tracked(placed), known, m) == if row.FinalFill() && row.id !in known then Max(0.0, row.Amount(m)) else 0.0
  {
    assert placed[..0] == [] && w.orders[..0] == [];
    assert row.id in Tracked(placed);
    assert TradeFill([], row.id, m) == 0.0 && OrderFill([], row.id, m) == 0.0;
  }

  /** What a task without a target makes of one order reported without trades: a closed order, or one with
      nothing left, is added once to what was filled before, unless it is the first final order of a task
      that already counted fills; any other report only raises the fill to what it says. */
  lemma OneOrderIsCounted(a: Account, w: Window, row: OrderRow, t: Targets, m: Measure)
    requires a.placed == [row.id] && w == Window([row], []) && t.Of(m) <= 0.0 && row.base > 0.0 && row.quote > 0.0
    ensures var final := row.closed || row.remaining <= 0.0;
            var first := a.knownFinal == {} && (a.base > 0.0 || a.quote > 0.0);
            Refreshed(a, w, t).Filled(m)
            == (if final && row.id !in a.knownFinal && !first then Max(a.Filled(m) + row.Amount(m), row.Amount(m))
                else Max(a.Filled(m), row.Amount(m)))
    ensures row.id in Refreshed(a, w, t).knownFinal <==> row.closed || row.remaining <= 0.0 || row.id in a.knownFinal
  {
    OneOrderSums(a.placed, w, row, a.knownFinal, m);
    assert Total(NewTrades([], Tracked(a.placed), a.knownTrades), m) == 0.0;
  }
}
