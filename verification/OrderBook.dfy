/** Order-book depth: how much base a quote budget buys, and what a quantity costs. */
module OrderBook {
  import opened Numbers

  datatype BookLevel = BookLevel(price: real, amount: real)

  /** Levels as the normaliser leaves them: positive prices and amounts. */
  ghost predicate Normalized(levels: seq<BookLevel>) {
    forall i :: 0 <= i < |levels| ==> levels[i].price > 0.0 && levels[i].amount > 0.0
  }

  function AvailableBase(levels: seq<BookLevel>): real {
    if levels == [] then 0.0 else levels[0].amount + AvailableBase(levels[1..])
  }

  function AvailableQuote(levels: seq<BookLevel>): real {
    if levels == [] then 0.0 else Product(levels[0].price, levels[0].amount) + AvailableQuote(levels[1..])
  }

  function MaxBase(levels: seq<BookLevel>, budget: real): real
    requires Normalized(levels)
  {
    if levels == [] then 0.0
    else if budget >= Product(levels[0].price, levels[0].amount)
    then levels[0].amount + MaxBase(levels[1..], budget - Product(levels[0].price, levels[0].amount))
    else budget / levels[0].price
  }

  /** The quote spent filling a quantity, and what is left unfilled. Levels are visited until the rest
      is negligible. */
  datatype Fill = Fill(gross: real, unfilled: real)

  function Walk(levels: seq<BookLevel>, quantity: real): Fill {
    if levels == [] then Fill(0.0, quantity)
    else
      var take := Min(quantity, levels[0].amount);
      var left := quantity - take;
      if left <= 0.000000000001 then Fill(Product(take, levels[0].price), left)
      else
        var rest := Walk(levels[1..], left);
        Fill(Product(take, levels[0].price) + rest.gross, rest.unfilled)
  }

  function EstimateFill(levels: seq<BookLevel>, quantity: real): Option<real> {
    if quantity <= 0.0 || Walk(levels, quantity).unfilled > 0.000000001 then None else Some(Walk(levels, quantity).gross)
  }

  method ComputeMaxBase(levels: seq<BookLevel>, budget: real) returns (total: real)
    requires Normalized(levels)
    ensures total == MaxBase(levels, budget)
  {
    var remaining := budget;
    total := 0.0;
    for i := 0 to |levels|
      invariant MaxBase(levels, budget) == total + MaxBase(levels[i..], remaining)
    {
      var atLevel := Product(levels[i].price, levels[i].amount);
      assert levels[i..][1..] == levels[i + 1..];
      if remaining >= atLevel {
        total := total + levels[i].amount;
        remaining := remaining - atLevel;
      } else {
        total := total + remaining / levels[i].price;
        return;
      }
    }
  }

  method ComputeFill(levels: seq<BookLevel>, quantity: real) returns (gross: Option<real>)
    ensures gross == EstimateFill(levels, quantity)
  {
    if quantity <= 0.0 {
      return None;
    }
    var remaining, total := quantity, 0.0;
    var i := 0;
    var more := true;
    while i < |levels| && more
      invariant i <= |levels|
      invariant more ==> Walk(levels, quantity) == Fill(total + Walk(levels[i..], remaining).gross, Walk(levels[i..], remaining).unfilled)
      invariant !more ==> Walk(levels, quantity) == Fill(total, remaining)
    {
      assert levels[i..][1..] == levels[i + 1..];
      var take := Min(remaining, levels[i].amount);
      total := total + Product(take, levels[i].price);
      remaining := remaining - take;
      more := remaining > 0.000000000001;
      i := i + 1;
    }
    if remaining > 0.000000001 {
      return None;
    }
    gross := Some(total);
  }

  // ---- a budget buys no more than it can pay ----

  lemma TakeCosts(take: real, amount: real, price: real, budget: real)
    requires price > 0.0
    ensures take <= amount ==> Product(take, price) <= Product(price, amount)
    ensures take <= budget / price ==> Product(take, price) <= budget
    ensures budget >= 0.0 ==> budget / price >= 0.0
    ensures budget < Product(price, amount) ==> budget / price < amount
  {
    if take <= amount {
      MulOrders(take, amount, price);
    }
    DivCancels(budget, price);
    if take <= budget / price {
      MulOrders(take, budget / price, price);
    }
    DivIsPositive(budget, price);
    if budget < Product(price, amount) && budget / price >= amount {
      MulOrders(amount, budget / price, price);
    }
  }

  /** Filling at most the base a budget buys never costs more than the budget. */
  lemma {:induction false} BudgetIsNotExceeded(levels: seq<BookLevel>, budget: real, quantity: real)
    requires Normalized(levels) && budget >= 0.0 && 0.0 <= quantity <= MaxBase(levels, budget)
    ensures Walk(levels, quantity).gross <= budget
  {
    if levels != [] {
      var l := levels[0];
      var take := Min(quantity, l.amount);
      TakeCosts(take, l.amount, l.price, budget);
      if budget >= Product(l.price, l.amount) {
        MaxBaseIsNonnegative(levels[1..], budget - Product(l.price, l.amount));
        BudgetIsNotExceeded(levels[1..], budget - Product(l.price, l.amount), quantity - take);
      }
    }
  }

  lemma {:induction false} MaxBaseIsNonnegative(levels: seq<BookLevel>, budget: real)
    requires Normalized(levels) && budget >= 0.0
    ensures 0.0 <= MaxBase(levels, budget) <= AvailableBase(levels)
  {
    if levels != [] {
      TakeCosts(0.0, levels[0].amount, levels[0].price, budget);
      AvailableIsNonnegative(levels[1..]);
      if budget >= Product(levels[0].price, levels[0].amount) {
        MaxBaseIsNonnegative(levels[1..], budget - Product(levels[0].price, levels[0].amount));
      }
    }
  }

  lemma {:induction false} AvailableIsNonnegative(levels: seq<BookLevel>)
    requires Normalized(levels)
    ensures AvailableBase(levels) >= 0.0
  {
    if levels != [] {
      AvailableIsNonnegative(levels[1..]);
    }
  }

  /** Any positive quantity within the book's depth is filled. */
  lemma {:induction false} DepthIsFilled(levels: seq<BookLevel>, quantity: real)
    requires Normalized(levels) && 0.0 <= quantity <= AvailableBase(levels)
    ensures 0.0 <= Walk(levels, quantity).unfilled <= 0.000000000001
    ensures quantity > 0.0 ==> EstimateFill(levels, quantity).Some?
  {
    if levels != [] {
      var left := quantity - Min(quantity, levels[0].amount);
      if left > 0.0 {
        DepthIsFilled(levels[1..], left);
      }
    }
  }

  lemma {:induction false} WalkIsNonnegative(levels: seq<BookLevel>, quantity: real)
    requires Normalized(levels) && quantity >= 0.0
    ensures Walk(levels, quantity).gross >= 0.0
  {
    if levels != [] {
      var take := Min(quantity, levels[0].amount);
      MulIsNonnegative(take, levels[0].price);
      WalkIsNonnegative(levels[1..], quantity - take);
    }
  }

  // ---- the budget is used up ----

  /** The exact cost, without the negligible-rest shortcut. */
  function Cost(levels: seq<BookLevel>, quantity: real): real {
    if levels == [] then 0.0
    else
      var take := Min(quantity, levels[0].amount);
      Product(take, levels[0].price) + Cost(levels[1..], quantity - take)
  }

  lemma {:induction false} NothingCostsNothing(levels: seq<BookLevel>)
    requires Normalized(levels)
    ensures Cost(levels, 0.0) == 0.0
  {
    if levels != [] {
      NothingCostsNothing(levels[1..]);
    }
  }

  lemma SpendingAtOneLevel(price: real, budget: real)
    requires price > 0.0
    ensures Product(budget / price, price) == budget
  {
    DivCancels(budget, price);
  }

  /** Buying with a budget is the inverse of pricing a quantity: the base a budget buys costs exactly
      the budget, or the whole book when the budget exceeds it. */
  lemma {:induction false} MaxBaseInvertsCost(levels: seq<BookLevel>, budget: real)
    requires Normalized(levels) && budget >= 0.0
    ensures Cost(levels, MaxBase(levels, budget)) == Min(budget, AvailableQuote(levels))
  {
    if levels != [] {
      var l := levels[0];
      var whole := Product(l.price, l.amount);
      TakeCosts(l.amount, l.amount, l.price, budget);
      if budget >= whole {
        MaxBaseIsNonnegative(levels[1..], budget - whole);
        MaxBaseInvertsCost(levels[1..], budget - whole);
      } else {
        SpendingAtOneLevel(l.price, budget);
        NothingCostsNothing(levels[1..]);
        QuoteIsNonnegative(levels[1..]);
      }
    }
  }

  lemma {:induction false} QuoteIsNonnegative(levels: seq<BookLevel>)
    requires Normalized(levels)
    ensures AvailableQuote(levels) >= 0.0
  {
    if levels != [] {
      MulIsPositive(levels[0].price, levels[0].amount);
      QuoteIsNonnegative(levels[1..]);
    }
  }

  // ---- what a walk fills, and that more costs more ----

  /** The part of a quantity the walk pays for. */
  function Filled(levels: seq<BookLevel>, quantity: real): real {
    quantity - Walk(levels, quantity).unfilled
  }

  /** The walk costs exactly what it fills. */
  lemma {:induction false} WalkCostsWhatItFills(levels: seq<BookLevel>, quantity: real)
    requires Normalized(levels) && 0.0 <= quantity <= AvailableBase(levels)
    ensures Walk(levels, quantity).gross == Cost(levels, Filled(levels, quantity))
    ensures 0.0 <= Filled(levels, quantity) <= quantity <= Filled(levels, quantity) + 0.000000000001
  {
    DepthIsFilled(levels, quantity);
    if levels != [] {
      var left := quantity - Min(quantity, levels[0].amount);
      NothingCostsNothing(levels[1..]);
      if left > 0.000000000001 {
        DepthIsFilled(levels[1..], left);
        WalkCostsWhatItFills(levels[1..], left);
      }
    }
  }

  lemma ProductsOrder(a: real, b: real, price: real)
    requires price > 0.0 && a <= b
    ensures Product(a, price) <= Product(b, price) && (a < b ==> Product(a, price) < Product(b, price))
  {
    if a < b {
      MulOrdersStrictly(a, b, price);
    } else {
      assert a == b;
    }
  }

  lemma SumsOrder(a: real, b: real, restA: real, restB: real)
    requires a <= b && restA <= restB && (a < b || restA < restB)
    ensures a + restA < b + restB
  {
  }

  lemma {:induction false} MoreCostsMore(levels: seq<BookLevel>, x: real, y: real)
    requires Normalized(levels) && 0.0 <= x < y <= AvailableBase(levels)
    ensures Cost(levels, x) < Cost(levels, y)
  {
    if levels != [] {
      var l := levels[0];
      NothingCostsNothing(levels[1..]);
      if y > l.amount {
        MoreCostsMore(levels[1..], x - Min(x, l.amount), y - l.amount);
      }
      var a, b := Min(x, l.amount), Min(y, l.amount);
      ProductsOrder(a, b, l.price);
      SumsOrder(Product(a, l.price), Product(b, l.price), Cost(levels[1..], x - a), Cost(levels[1..], y - b));
    }
  }

  lemma {:induction false} FilledIsMonotone(levels: seq<BookLevel>, x: real, y: real)
    requires Normalized(levels) && 0.0 <= x <= y <= AvailableBase(levels)
    ensures Filled(levels, x) <= Filled(levels, y)
  {
    if levels != [] {
      var a := levels[0].amount;
      if x > a {
        FilledIsMonotone(levels[1..], x - a, y - a);
        DepthIsFilled(levels[1..], x - a);
        DepthIsFilled(levels[1..], y - a);
      } else if y > a {
        DepthIsFilled(levels[1..], y - a);
      }
    }
  }

  /** Two quantities within depth cost the same exactly when the walk fills the same part of both, and
      the larger one never costs less. */
  lemma CostsAgreeExactlyWhen(levels: seq<BookLevel>, x: real, y: real)
    requires Normalized(levels) && 0.0 <= x <= y <= AvailableBase(levels)
    ensures Walk(levels, x).gross <= Walk(levels, y).gross
    ensures Walk(levels, x).gross == Walk(levels, y).gross <==> Filled(levels, x) == Filled(levels, y)
  {
    WalkCostsWhatItFills(levels, x);
    WalkCostsWhatItFills(levels, y);
    FilledIsMonotone(levels, x, y);
    if Filled(levels, x) < Filled(levels, y) {
      MoreCostsMore(levels, Filled(levels, x), Filled(levels, y));
    }
  }
}
