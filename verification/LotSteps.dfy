/** Real lot steps: rounding down to a multiple of a step meets every hypothesis of the alignment. */
module LotSteps {
  import opened Numbers
  import opened Alignment

  function LotFloor(step: real, x: real): real
    requires step > 0.0
  {
    Product((x / step).Floor as real, step)
  }

  function FloorTo(step: real): real -> real
    requires step > 0.0
  {
    x => LotFloor(step, x)
  }

  /** Two venues with lot steps, under any limit and depth checks. */
  function Steps(buy: real, sell: real, limits: real -> bool, depth: real -> bool): Venues
    requires buy > 0.0 && sell > 0.0
  {
    Venues(FloorTo(buy), FloorTo(sell), limits, depth)
  }

  // ---- rounding to a step ----

  lemma FloorIsBelow(step: real, x: real)
    requires step > 0.0
    ensures LotFloor(step, x) <= x
  {
    MulOrders((x / step).Floor as real, x / step, step);
    DivCancels(x, step);
  }

  lemma FloorOrders(a: real, b: real)
    requires a <= b
    ensures a.Floor <= b.Floor
  {
  }

  lemma FloorIsMonotone(step: real, x: real, y: real)
    requires step > 0.0 && x <= y
    ensures LotFloor(step, x) <= LotFloor(step, y)
  {
    DivOrders(x, y, step);
    FloorOrders(x / step, y / step);
    MulOrders((x / step).Floor as real, (y / step).Floor as real, step);
  }

  lemma MultipleIsUnchanged(step: real, k: int)
    requires step > 0.0
    ensures LotFloor(step, Product(k as real, step)) == Product(k as real, step)
  {
    MulDivCancels(k as real, step);
    assert Product(k as real, step) / step == k as real;
    assert (k as real).Floor == k;
  }

  /** Rounding down to a step is a lot rounding. */
  lemma StepIsLotRounding(step: real)
    requires step > 0.0
    ensures LotRounding(FloorTo(step))
  {
    var round := FloorTo(step);
    forall x, y | x <= y
      ensures round(x) <= round(y)
    {
      FloorIsMonotone(step, x, y);
    }
    forall x
      ensures round(round(x)) == round(x) && round(x) <= x
    {
      FloorIsBelow(step, x);
      MultipleIsUnchanged(step, (x / step).Floor);
    }
  }

  // ---- steps on a common quantum ----

  /** A step of so many quantums. */
  function StepOf(k: nat, g: real): (step: real)
    requires k > 0 && g > 0.0
    ensures step > 0.0
  {
    MulIsPositive(k as real, g);
    Product(k as real, g)
  }

  lemma MultipleOfQuantum(k: nat, g: real, x: real) returns (m: int)
    requires k > 0 && g > 0.0
    ensures LotFloor(StepOf(k, g), x) == Product(m as real, g)
  {
    var n := (x / StepOf(k, g)).Floor;
    m := n * k;
    MulReorders(n as real, k as real, g);
  }

  lemma QuantumsApart(m: int, n: int, g: real)
    requires g > 0.0 && m != n
    ensures Abs(Product(m as real, g) - Product(n as real, g)) >= g
  {
    var d := (m - n) as real;
    assert m as real == n as real + d;
    MulAdds(g, n as real, d);
    assert Product(m as real, g) - Product(n as real, g) == d * g;
    if m > n {
      MulOrders(1.0, d, g);
    } else {
      MulOrders(d, -1.0, g);
    }
  }

  /** Both steps are multiples of a quantum that exceeds the tolerance of the request. */
  predicate OnQuantum(i: nat, j: nat, g: real, requested: real) {
    i > 0 && j > 0 && g > 0.0 && Max(requested, 1.0) / 1000000000000.0 < g
  }

  function QuantumVenues(i: nat, j: nat, g: real, limits: real -> bool, depth: real -> bool): Venues
    requires i > 0 && j > 0 && g > 0.0
  {
    Steps(StepOf(i, g), StepOf(j, g), limits, depth)
  }

  lemma ToleranceIsBelowQuantum(candidate: real, aligned: real, g: real, requested: real)
    requires 0.0 < candidate <= requested && 0.0 <= aligned <= candidate && Max(requested, 1.0) / 1000000000000.0 < g
    ensures ToleranceAt(candidate, aligned) < g
  {
  }

  lemma FloorIsNonnegative(step: real, x: real)
    requires step > 0.0 && x >= 0.0
    ensures LotFloor(step, x) >= 0.0
  {
    DivIsPositive(x, step);
    MulIsNonnegative((x / step).Floor as real, step);
  }

  /** Different multiples of the quantum are further apart than the tolerance, so the steps are separated
      up to the request. */
  lemma QuantumSeparates(i: nat, j: nat, g: real, limits: real -> bool, depth: real -> bool, requested: real)
    requires OnQuantum(i, j, g, requested)
    ensures var v := QuantumVenues(i, j, g, limits, depth);
            LotRounding(v.buy) && LotRounding(v.sell) && SeparatedUpTo(v, requested)
  {
    var v := QuantumVenues(i, j, g, limits, depth);
    var a, b := StepOf(i, g), StepOf(j, g);
    StepIsLotRounding(a);
    StepIsLotRounding(b);
    forall c | 0.0 < c <= requested
      ensures Separated(v, c)
    {
      var m := MultipleOfQuantum(i, g, c);
      var n := MultipleOfQuantum(j, g, c);
      FloorIsNonnegative(a, c);
      FloorIsNonnegative(b, c);
      ToleranceIsBelowQuantum(c, RoundDown(v, c), g, requested);
      if m != n {
        QuantumsApart(m, n, g);
      }
    }
  }

  /** For two venues whose steps are multiples of a quantum above the tolerance, the loop succeeds if and
      only if its checks pass and three roundings reach a positive common lot, and then it returns the
      greatest common lot up to the request. */
  lemma LotStepsAlign(i: nat, j: nat, g: real, limits: real -> bool, depth: real -> bool, requested: real)
    requires OnQuantum(i, j, g, requested)
    ensures var v := QuantumVenues(i, j, g, limits, depth);
            && (AlignFrom(v, requested, 1).Aligned? <==>
                ChecksPass(v, requested, 3) && Iterate(v, requested, 3) > 0.0 && Fixed(v, Iterate(v, requested, 3)))
            && (AlignFrom(v, requested, 1).Aligned? ==> GreatestFixed(v, requested, AlignFrom(v, requested, 1).quantity))
  {
    var v := QuantumVenues(i, j, g, limits, depth);
    QuantumSeparates(i, j, g, limits, depth, requested);
    AlignmentSucceedsExactlyWhen(v, requested);
    if AlignFrom(v, requested, 1).Aligned? {
      AlignmentIsGreatestFixedPoint(v, requested);
    }
  }

  // ---- one step divides the other ----

  /** Every multiple of a multiple of a step is a multiple of the step. */
  lemma DividingStepRefines(k: nat, s: real)
    requires k > 0 && s > 0.0
    ensures Refines(FloorTo(StepOf(k, s)), FloorTo(s))
  {
    var coarse, fine := FloorTo(StepOf(k, s)), FloorTo(s);
    forall x
      ensures fine(coarse(x)) == coarse(x)
    {
      var m := MultipleOfQuantum(k, s, x);
      MultipleIsUnchanged(s, m);
    }
  }

  /** When the buy step is a multiple of the sell step, or the other way round, the loop succeeds by its
      second attempt if and only if the rounded quantity is positive and its checks pass. No tolerance
      bound is needed. */
  lemma DividingStepsAlignByAttemptTwo(k: nat, s: real, buyIsCoarse: bool, limits: real -> bool, depth: real -> bool, requested: real)
    requires k > 0 && s > 0.0
    ensures var v := if buyIsCoarse then Steps(StepOf(k, s), s, limits, depth) else Steps(s, StepOf(k, s), limits, depth);
            var q := RoundDown(v, requested);
            var r := AlignFrom(v, requested, 1);
            && (r.Aligned? <==> depth(requested) && limits(requested) && q > 0.0 && depth(q) && (CloseEnough(v, requested) || limits(q)))
            && (r.Aligned? ==> r.attempt <= 2 && GreatestFixed(v, requested, r.quantity))
  {
    var v := if buyIsCoarse then Steps(StepOf(k, s), s, limits, depth) else Steps(s, StepOf(k, s), limits, depth);
    StepIsLotRounding(s);
    StepIsLotRounding(StepOf(k, s));
    DividingStepRefines(k, s);
    NestedLotsAlignByAttemptTwo(v, requested);
    if AlignFrom(v, requested, 1).Aligned? {
      CoarseRoundingIsFixed(v, requested);
      forall x | Fixed(v, x) && x <= requested
        ensures x <= RoundDown(v, requested)
      {
        FixedSurvivesRounding(v, requested, x);
      }
    }
  }

  // ---- inputs that show the conditions are needed ----

  function AnyAmount(): real -> bool {
    (x: real) => true
  }

  /** With steps 5 and 7 a request of 69 runs out of attempts although both venues accept 35: rounding
      three times reaches 56, which is no lot of 5. */
  lemma FourAttemptsMayNotSuffice()
    ensures var v := Steps(5.0, 7.0, AnyAmount(), AnyAmount());
            AlignFrom(v, 69.0, 1) == Failed(NotAligned) && Fixed(v, 35.0) && Iterate(v, 69.0, 3) == 56.0 && !Fixed(v, 56.0)
  {
    var v := Steps(5.0, 7.0, AnyAmount(), AnyAmount());
    assert RoundDown(v, 69.0) == 63.0;
    assert RoundDown(v, 63.0) == 60.0;
    assert RoundDown(v, 60.0) == 56.0;
    assert RoundDown(v, 56.0) == 55.0;
    assert Iterate(v, 60.0, 1) == 56.0 && Iterate(v, 63.0, 2) == 56.0;
    assert AlignFrom(v, 56.0, 4) == Failed(NotAligned);
    assert AlignFrom(v, 60.0, 3) == Failed(NotAligned);
    assert AlignFrom(v, 63.0, 2) == Failed(NotAligned);
  }

  /** Steps closer than the tolerance are accepted although one venue would round the result away: the
      smaller prepared amount is no lot of the other venue. */
  lemma CloseStepsAreTakenAsEqual()
    ensures var v := Steps(1.0, 1.0000000000001, AnyAmount(), AnyAmount());
            AlignFrom(v, 1.0000000000001, 1) == Aligned(1.0, 1) && !Fixed(v, 1.0) && !OtherVenueKeeps(v, 1.0000000000001)
  {
    var v := Steps(1.0, 1.0000000000001, AnyAmount(), AnyAmount());
    assert (1.0 / 1.0000000000001).Floor == 0;
    assert v.buy(1.0000000000001) == 1.0;
    assert v.sell(1.0000000000001) == 1.0000000000001;
  }
}
