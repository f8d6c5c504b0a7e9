/** Open-order reserves: balances adjusted so that free plus used is the total and orders are covered. */
module Reserves {
  import opened Numbers

  datatype Side = Buy | Sell | OtherSide

  datatype OpenOrder = OpenOrder(
    base: string, quote: string, side: Side, remaining: Option<real>, amount: Option<real>, filled: Option<real>, price: Option<real>)

  datatype Row = Row(free: Option<real>, used: Option<real>, total: Option<real>)

  const EMPTY_ROW := Row(None, None, None)

  function OrZero(x: Option<real>): real {
    if x.Some? then x.value else 0.0
  }

  function RemainingOf(o: OpenOrder): real {
    if o.remaining.Some? then o.remaining.value else Max(0.0, OrZero(o.amount) - OrZero(o.filled))
  }

  /** What an order reserves: its base when selling, its quote when buying. */
  function ReservedBy(o: OpenOrder, currency: string): real {
    if o.side == Sell && o.base != "" then (if currency == o.base then RemainingOf(o) else 0.0)
    else if o.side == Buy && o.quote != "" then (if currency == o.quote then Product(RemainingOf(o), OrZero(o.price)) else 0.0)
    else 0.0
  }

  function Reserved(orders: seq<OpenOrder>, currency: string): real {
    if orders == [] then 0.0 else Reserved(orders[..|orders| - 1], currency) + ReservedBy(orders[|orders| - 1], currency)
  }

  function Amount(reserves: map<string, real>, currency: string): real {
    if currency in reserves then reserves[currency] else 0.0
  }

  /** The loop over the open orders. */
  method SumReserves(orders: seq<OpenOrder>) returns (reserves: map<string, real>)
    ensures forall c :: Amount(reserves, c) == Reserved(orders, c)
  {
    reserves := map[];
    for i := 0 to |orders|
      invariant forall c :: Amount(reserves, c) == Reserved(orders[..i], c)
    {
      assert orders[..i + 1][..i] == orders[..i];
      var o := orders[i];
      var remaining := RemainingOf(o);
      if o.side == Sell && o.base != "" {
        reserves := reserves[o.base := Amount(reserves, o.base) + remaining];
      } else if o.side == Buy && o.quote != "" {
        reserves := reserves[o.quote := Amount(reserves, o.quote) + Product(remaining, OrZero(o.price))];
      }
    }
    assert orders[..|orders|] == orders;
  }

  // ---- one row ----

  const HIDDEN_TOLERANCE := 0.000000001

  function RawTotal(r: Row): Option<real> {
    if r.total.None? && (r.free.Some? || r.used.Some?) then Some(OrZero(r.free) + OrZero(r.used)) else r.total
  }

  /** The exchange reports the whole total as free and nothing as used: the reserve is not in it. */
  predicate HidesReserve(r: Row) {
    && RawTotal(r).Some? && r.free.Some?
    && Abs(RawTotal(r).value - r.free.value) <= HIDDEN_TOLERANCE && OrZero(r.used) <= HIDDEN_TOLERANCE
  }

  function Adjust(r: Row, reserved: real): Row {
    var used := Max(OrZero(r.used), reserved);
    if HidesReserve(r) then Row(Some(r.free.value), Some(used), Some(r.free.value + used))
    else
      var total := Max(OrZero(RawTotal(r)), used);
      Row(Some(Max(0.0, total - used)), Some(used), Some(total))
  }

  ghost predicate NonnegativeRow(r: Row) {
    OrZero(r.free) >= 0.0 && OrZero(r.used) >= 0.0 && OrZero(r.total) >= 0.0
  }

  /** Whatever the exchange reported, free plus used is the total and used covers the reserve. */
  lemma AdjustedRowBalances(r: Row, reserved: real)
    ensures var a := Adjust(r, reserved);
            && a.free.Some? && a.used.Some? && a.total.Some?
            && a.free.value + a.used.value == a.total.value && a.used.value >= reserved
    ensures NonnegativeRow(r) && reserved > 0.0 ==> NonnegativeRow(Adjust(r, reserved))
    ensures NonnegativeRow(r) && reserved >= HIDDEN_TOLERANCE ==> OrZero(Adjust(r, reserved).total) >= OrZero(RawTotal(r))
  {
  }

  /** A row without a total is adjusted as if its total were free plus used. */
  lemma MissingTotalIsSumOfParts(free: real, used: real, reserved: real)
    ensures Adjust(Row(Some(free), Some(used), None), reserved) == Adjust(Row(Some(free), Some(used), Some(free + used)), reserved)
    ensures Adjust(Row(Some(free), None, None), reserved) == Adjust(Row(Some(free), None, Some(free)), reserved)
  {
  }

  /** Adjusting twice is adjusting once, unless the row hides its reserve behind a negative free amount
      and what is used exceeds the tolerance. */
  lemma AdjustingTwiceIsOnceExactlyWhen(r: Row, reserved: real)
    requires reserved > 0.0
    ensures Adjust(Adjust(r, reserved), reserved) == Adjust(r, reserved) <==>
            !(HidesReserve(r) && r.free.value < 0.0 && Max(OrZero(r.used), reserved) > HIDDEN_TOLERANCE)
  {
    var once := Adjust(r, reserved);
    var used := Max(OrZero(r.used), reserved);
    assert once.used == Some(used) && RawTotal(once) == once.total && once.total.value - once.free.value == used;
    assert HidesReserve(once) <==> used <= HIDDEN_TOLERANCE;
  }

  // ---- the account ----

  function RowFor(rows: map<string, Row>, c: string): Row {
    if c in rows then rows[c] else EMPTY_ROW
  }

  ghost predicate Adjusts(before: map<string, Row>, after: map<string, Row>, reserves: map<string, real>) {
    && (forall c :: c in after <==> c in before || Amount(reserves, c) > 0.0)
    && (forall c :: c in after ==> after[c] == if Amount(reserves, c) > 0.0 then Adjust(RowFor(before, c), Amount(reserves, c)) else RowFor(before, c))
  }

  /** The loop over the reserves. */
  method AdjustRows(rows: map<string, Row>, reserves: map<string, real>) returns (adjusted: map<string, Row>)
    ensures Adjusts(rows, adjusted, reserves)
  {
    adjusted := rows;
    var left := reserves.Keys;
    while left != {}
      invariant left <= reserves.Keys
      invariant forall c :: c in adjusted <==> c in rows || (c in reserves && c !in left && reserves[c] > 0.0)
      invariant forall c :: c in adjusted ==>
                  adjusted[c] == if c in reserves && c !in left && reserves[c] > 0.0 then Adjust(RowFor(rows, c), reserves[c]) else RowFor(rows, c)
      decreases left
    {
      var c :| c in left;
      left := left - {c};
      if reserves[c] > 0.0 {
        adjusted := adjusted[c := Adjust(RowFor(adjusted, c), reserves[c])];
      }
    }
  }

  ghost predicate AdjustedBy(before: map<string, Row>, after: map<string, Row>, orders: seq<OpenOrder>) {
    && (forall c :: c in after <==> c in before || Reserved(orders, c) > 0.0)
    && (forall c :: c in after ==> after[c] == if Reserved(orders, c) > 0.0 then Adjust(RowFor(before, c), Reserved(orders, c)) else RowFor(before, c))
  }

  /** The whole adjustment; an unchecked balance is left alone. */
  method ApplyOpenOrderReserves(checked: bool, rows: map<string, Row>, orders: seq<OpenOrder>) returns (adjusted: map<string, Row>)
    ensures if checked then AdjustedBy(rows, adjusted, orders) else adjusted == rows
  {
    adjusted := rows;
    if checked {
      var reserves := SumReserves(orders);
      adjusted := AdjustRows(rows, reserves);
      forall c
        ensures Amount(reserves, c) == Reserved(orders, c)
      {
      }
    }
  }

  /** After the adjustment every reserved currency is listed, balances, and covers its summed reserve. */
  lemma EveryReserveIsCovered(before: map<string, Row>, after: map<string, Row>, orders: seq<OpenOrder>, c: string)
    requires AdjustedBy(before, after, orders) && Reserved(orders, c) > 0.0
    ensures c in after && after[c].free.Some? && after[c].used.Some? && after[c].total.Some?
    ensures after[c].free.value + after[c].used.value == after[c].total.value && after[c].used.value >= Reserved(orders, c)
  {
    AdjustedRowBalances(RowFor(before, c), Reserved(orders, c));
  }

  /** For nonnegative raw balances, adjusting an account twice for the same orders is adjusting it once. */
  lemma AccountAdjustmentIsIdempotent(before: map<string, Row>, once: map<string, Row>, twice: map<string, Row>, orders: seq<OpenOrder>)
    requires AdjustedBy(before, once, orders) && AdjustedBy(once, twice, orders)
    requires forall c :: c in before ==> NonnegativeRow(before[c])
    ensures twice == once
  {
    forall c
      ensures c in twice <==> c in once
      ensures c in twice ==> twice[c] == once[c]
    {
      if Reserved(orders, c) > 0.0 {
        AdjustingTwiceIsOnceExactlyWhen(RowFor(before, c), Reserved(orders, c));
      }
    }
  }

  // ---- what the open orders will pay ----

  /** Filling an order whole: a sale gives up what is left of its base, a buy pays its price for it. */
  function Pay(holdings: map<string, real>, o: OpenOrder): map<string, real> {
    match o.side
    case Sell => if o.base == "" then holdings else holdings[o.base := Amount(holdings, o.base) - RemainingOf(o)]
    case Buy => if o.quote == "" then holdings else holdings[o.quote := Amount(holdings, o.quote) - Product(RemainingOf(o), OrZero(o.price))]
    case OtherSide => holdings
  }

  function PayAll(holdings: map<string, real>, orders: seq<OpenOrder>): map<string, real> {
    if orders == [] then holdings else Pay(PayAll(holdings, orders[..|orders| - 1]), orders[|orders| - 1])
  }

  /** What is left of an order and what is filled make up its amount, whether or not it is reported. */
  lemma RemainingIsUnfilled(o: OpenOrder)
    requires o.amount.Some? && 0.0 <= OrZero(o.filled) <= o.amount.value
    requires o.remaining.Some? ==> o.remaining.value == o.amount.value - OrZero(o.filled)
    ensures RemainingOf(o) + OrZero(o.filled) == o.amount.value
  {
  }

  /** The reserve of a currency is exactly what filling every open order would take out of it. */
  lemma {:induction false} ReservesAreWhatOrdersPay(holdings: map<string, real>, orders: seq<OpenOrder>, c: string)
    ensures Amount(PayAll(holdings, orders), c) == Amount(holdings, c) - Reserved(orders, c)
  {
    if orders != [] {
      ReservesAreWhatOrdersPay(holdings, orders[..|orders| - 1], c);
    }
  }

  /** So after the adjustment every open order can fill without touching what is shown as free. */
  lemma FreeSurvivesEveryFill(before: map<string, Row>, after: map<string, Row>, orders: seq<OpenOrder>, holdings: map<string, real>, c: string)
    requires AdjustedBy(before, after, orders) && c in after && Reserved(orders, c) > 0.0
    requires after[c].total.Some? && Amount(holdings, c) == after[c].total.value
    ensures after[c].free.Some? && Amount(PayAll(holdings, orders), c) >= after[c].free.value
  {
    ReservesAreWhatOrdersPay(holdings, orders, c);
    EveryReserveIsCovered(before, after, orders, c);
  }
}
