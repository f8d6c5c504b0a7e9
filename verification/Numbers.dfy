/** Options and exact real arithmetic shared by every component. */
module Numbers {

  datatype Option<+T> = None | Some(value: T)

  function Min(a: real, b: real): real {
    if a <= b then a else b
  }

  function Max(a: real, b: real): real {
    if a >= b then a else b
  }

  function Abs(a: real): real {
    if a >= 0.0 then a else -a
  }

  /** A product and a proportional share, named so that proofs can handle them as single terms. */
  function Product(a: real, b: real): real {
    a * b
  }

  function Share(amount: real, weight: real, total: real): real
    requires total != 0.0
  {
    amount * weight / total
  }

  /** The sum of a sequence of reals. */
  function Sum(xs: seq<real>): real {
    if xs == [] then 0.0 else Sum(xs[..|xs| - 1]) + xs[|xs| - 1]
  }

  lemma SumAppend(xs: seq<real>, x: real)
    ensures Sum(xs + [x]) == Sum(xs) + x
  {
    assert (xs + [x])[..|xs|] == xs;
  }

  // ---- real arithmetic the solver does not do on its own ----

  lemma MulAdds(a: real, b: real, c: real)
    ensures a * (b + c) == a * b + a * c
    ensures (b + c) * a == b * a + c * a
  {
  }

  lemma MulOrders(a: real, b: real, c: real)
    requires a <= b && c >= 0.0
    ensures a * c <= b * c && c * a <= c * b
  {
  }

  lemma MulOrdersStrictly(a: real, b: real, c: real)
    requires a < b && c > 0.0
    ensures a * c < b * c && c * a < c * b
  {
  }

  lemma MulIsPositive(a: real, b: real)
    requires a > 0.0 && b > 0.0
    ensures a * b > 0.0
  {
  }

  lemma MulIsNonnegative(a: real, b: real)
    requires a >= 0.0 && b >= 0.0
    ensures a * b >= 0.0
  {
  }

  lemma MulReorders(a: real, b: real, c: real)
    ensures a * b * c == a * (b * c) == a * c * b
  {
  }

  lemma DivCancels(a: real, b: real)
    requires b != 0.0
    ensures a / b * b == a
    ensures b * (a / b) == a
  {
  }

  lemma DivIsPositive(a: real, b: real)
    requires b > 0.0
    ensures a > 0.0 ==> a / b > 0.0
    ensures a >= 0.0 ==> a / b >= 0.0
    ensures a < 0.0 ==> a / b < 0.0
  {
  }

  lemma MulKeepsSign(a: real, b: real)
    requires b > 0.0
    ensures a > 0.0 ==> a * b > 0.0
    ensures a == 0.0 ==> a * b == 0.0
    ensures a < 0.0 ==> a * b < 0.0
  {
  }

  lemma DivOrders(a: real, b: real, d: real)
    requires d > 0.0
    ensures a <= b <==> a / d <= b / d
    ensures a < b <==> a / d < b / d
  {
    DivCancels(b - a, d);
    DivAdds(a, b - a, d);
    MulKeepsSign((b - a) / d, d);
  }

  lemma DivAdds(a: real, b: real, d: real)
    requires d != 0.0
    ensures (a + b) / d == a / d + b / d
  {
  }

  lemma MulDivCancels(a: real, b: real)
    requires b != 0.0
    ensures a * b / b == a
  {
  }
}
