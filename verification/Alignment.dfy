/** Aligning a quantity to the lot sizes of two venues by repeated rounding. */
module Alignment {
  import opened Numbers

  /** The two venues: how each rounds an amount, and which amounts their limits and the books accept. */
  datatype Venues = Venues(buy: real -> real, sell: real -> real, limits: real -> bool, depth: real -> bool)

  datatype AlignError = DepthGone | LimitBroken | RoundedToZero | NotAligned

  datatype Alignment = Failed(error: AlignError) | Aligned(quantity: real, attempt: nat)

  function Prepared(round: real -> real, candidate: real): real {
    Max(0.0, round(candidate))
  }

  function RoundDown(v: Venues, candidate: real): real {
    Min(candidate, Min(Prepared(v.buy, candidate), Prepared(v.sell, candidate)))
  }

  function ToleranceAt(candidate: real, aligned: real): real {
    Max(Max(Abs(candidate), Abs(aligned)), 1.0) / 1000000000000.0
  }

  predicate CloseEnough(v: Venues, candidate: real) {
    var aligned := RoundDown(v, candidate);
    && Abs(Prepared(v.buy, candidate) - Prepared(v.sell, candidate)) <= ToleranceAt(candidate, aligned)
    && Abs(candidate - aligned) <= ToleranceAt(candidate, aligned)
  }

  const ATTEMPTS: nat := 4

  function AlignFrom(v: Venues, candidate: real, attempt: nat): Alignment
    decreases ATTEMPTS - attempt
  {
    if !v.depth(candidate) then Failed(DepthGone)
    else if !v.limits(candidate) then Failed(LimitBroken)
    else
      var aligned := RoundDown(v, candidate);
      if aligned <= 0.0 then Failed(RoundedToZero)
      else if CloseEnough(v, candidate) then (if v.depth(aligned) then Aligned(aligned, attempt) else Failed(DepthGone))
      else if attempt >= ATTEMPTS then Failed(NotAligned)
      else AlignFrom(v, aligned, attempt + 1)
  }

  /** The alignment loop. */
  method AlignQuantity(v: Venues, requested: real) returns (r: Alignment)
    ensures r == AlignFrom(v, requested, 1)
  {
    var candidate := requested;
    var attempt := 1;
    while attempt <= ATTEMPTS
      invariant 1 <= attempt <= ATTEMPTS + 1
      invariant attempt <= ATTEMPTS ==> AlignFrom(v, requested, 1) == AlignFrom(v, candidate, attempt)
      invariant attempt > ATTEMPTS ==> AlignFrom(v, requested, 1) == Failed(NotAligned)
    {
      if !v.depth(candidate) {
        return Failed(DepthGone);
      }
      if !v.limits(candidate) {
        return Failed(LimitBroken);
      }
      var bought, sold := Max(0.0, v.buy(candidate)), Max(0.0, v.sell(candidate));
      var aligned := Min(candidate, Min(bought, sold));
      if aligned <= 0.0 {
        return Failed(RoundedToZero);
      }
      var tolerance := Max(Max(Abs(candidate), Abs(aligned)), 1.0) / 1000000000000.0;
      if Abs(bought - sold) <= tolerance && Abs(candidate - aligned) <= tolerance {
        return if v.depth(aligned) then Aligned(aligned, attempt) else Failed(DepthGone);
      }
      candidate := aligned;
      attempt := attempt + 1;
    }
    r := Failed(NotAligned);
  }

  /** A lot rounding: monotone, idempotent and never upward. */
  ghost predicate LotRounding(round: real -> real) {
    && (forall x, y :: x <= y ==> round(x) <= round(y))
    && (forall x :: round(round(x)) == round(x) && round(x) <= x)
  }

  /** A quantity both venues leave unchanged. */
  predicate Fixed(v: Venues, x: real) {
    v.buy(x) == x && v.sell(x) == x
  }

  lemma FixedSurvivesRounding(v: Venues, candidate: real, x: real)
    requires LotRounding(v.buy) && LotRounding(v.sell) && Fixed(v, x) && x <= candidate
    ensures x <= RoundDown(v, candidate)
  {
    assert v.buy(x) <= v.buy(candidate) && v.sell(x) <= v.sell(candidate);
  }

  /** No common fixed point up to the request is ever missed: the result is at least every one of them,
      and a request rounded to zero has none that is positive. */
  lemma {:induction false} NoFixedPointIsMissed(v: Venues, requested: real, attempt: nat, x: real)
    requires LotRounding(v.buy) && LotRounding(v.sell) && Fixed(v, x) && x <= requested
    ensures AlignFrom(v, requested, attempt).Aligned? ==> x <= AlignFrom(v, requested, attempt).quantity <= requested
    ensures AlignFrom(v, requested, attempt) == Failed(RoundedToZero) ==> x <= 0.0
    decreases ATTEMPTS - attempt
  {
    FixedSurvivesRounding(v, requested, x);
    if attempt < ATTEMPTS {
      NoFixedPointIsMissed(v, RoundDown(v, requested), attempt + 1, x);
    }
  }

  // ---- when a success is the greatest common lot ----

  ghost predicate GreatestFixed(v: Venues, requested: real, q: real) {
    0.0 < q <= requested && Fixed(v, q) && forall x :: Fixed(v, x) && x <= requested ==> x <= q
  }

  /** The candidate at which the loop stops. */
  function LastCandidate(v: Venues, candidate: real, attempt: nat): real
    decreases ATTEMPTS - attempt
  {
    if CloseEnough(v, candidate) || attempt >= ATTEMPTS then candidate else LastCandidate(v, RoundDown(v, candidate), attempt + 1)
  }

  /** The smaller of the two prepared amounts is a lot of the venue that prepared the larger one. */
  predicate OtherVenueKeeps(v: Venues, candidate: real) {
    if v.buy(candidate) <= v.sell(candidate) then v.sell(v.buy(candidate)) == v.buy(candidate)
    else v.buy(v.sell(candidate)) == v.sell(candidate)
  }

  lemma PositiveRoundDown(v: Venues, candidate: real)
    requires LotRounding(v.buy) && LotRounding(v.sell) && RoundDown(v, candidate) > 0.0
    ensures RoundDown(v, candidate) == Min(v.buy(candidate), v.sell(candidate))
    ensures IsLot(v, RoundDown(v, candidate))
    ensures Fixed(v, RoundDown(v, candidate)) <==> OtherVenueKeeps(v, candidate)
  {
    assert v.buy(v.buy(candidate)) == v.buy(candidate) <= candidate;
    assert v.sell(v.sell(candidate)) == v.sell(candidate) <= candidate;
  }

  predicate IsLot(v: Venues, x: real) {
    v.buy(x) == x || v.sell(x) == x
  }

  lemma {:induction false} ResultIsLastRounding(v: Venues, requested: real, attempt: nat)
    requires AlignFrom(v, requested, attempt).Aligned?
    ensures AlignFrom(v, requested, attempt).quantity == RoundDown(v, LastCandidate(v, requested, attempt)) > 0.0
    ensures LastCandidate(v, requested, attempt) <= requested && RoundDown(v, LastCandidate(v, requested, attempt)) <= requested
    ensures CloseEnough(v, LastCandidate(v, requested, attempt))
    decreases ATTEMPTS - attempt
  {
    if !CloseEnough(v, requested) {
      ResultIsLastRounding(v, RoundDown(v, requested), attempt + 1);
    }
  }

  /** For any two lot roundings a success is the greatest quantity up to the request that both venues
      leave unchanged, if and only if the smaller amount prepared at the last attempt is a lot of the
      other venue. */
  lemma SuccessIsGreatestExactlyWhen(v: Venues, requested: real)
    requires LotRounding(v.buy) && LotRounding(v.sell) && AlignFrom(v, requested, 1).Aligned?
    ensures GreatestFixed(v, requested, AlignFrom(v, requested, 1).quantity) <==> OtherVenueKeeps(v, LastCandidate(v, requested, 1))
  {
    ResultIsLastRounding(v, requested, 1);
    PositiveRoundDown(v, LastCandidate(v, requested, 1));
    forall x | Fixed(v, x) && x <= requested
      ensures x <= AlignFrom(v, requested, 1).quantity
    {
      NoFixedPointIsMissed(v, requested, 1, x);
    }
  }

  /** The two roundings of an amount are equal or further apart than the tolerance. */
  predicate Separated(v: Venues, candidate: real) {
    Abs(Prepared(v.buy, candidate) - Prepared(v.sell, candidate)) <= ToleranceAt(candidate, RoundDown(v, candidate)) ==>
      Prepared(v.buy, candidate) == Prepared(v.sell, candidate)
  }

  ghost predicate SeparatedUpTo(v: Venues, requested: real) {
    forall c :: 0.0 < c <= requested ==> Separated(v, c)
  }

  lemma CloseIsFixed(v: Venues, candidate: real)
    requires LotRounding(v.buy) && LotRounding(v.sell) && Separated(v, candidate)
    requires CloseEnough(v, candidate) && RoundDown(v, candidate) > 0.0
    ensures Fixed(v, RoundDown(v, candidate)) && OtherVenueKeeps(v, candidate)
  {
    PositiveRoundDown(v, candidate);
  }

  /** On lot grids that are separated up to the request, every success is the greatest common lot. */
  lemma AlignmentIsGreatestFixedPoint(v: Venues, requested: real)
    requires LotRounding(v.buy) && LotRounding(v.sell) && SeparatedUpTo(v, requested)
    requires AlignFrom(v, requested, 1).Aligned?
    ensures GreatestFixed(v, requested, AlignFrom(v, requested, 1).quantity)
  {
    ResultIsLastRounding(v, requested, 1);
    CloseIsFixed(v, LastCandidate(v, requested, 1));
    SuccessIsGreatestExactlyWhen(v, requested);
  }

  // ---- when the loop succeeds ----

  function Iterate(v: Venues, candidate: real, n: nat): real
    decreases n
  {
    if n == 0 then candidate else Iterate(v, RoundDown(v, candidate), n - 1)
  }

  /** The limit and depth checks pass at every candidate the loop visits, and so does the depth check of
      what each is rounded to. */
  predicate ChecksPass(v: Venues, candidate: real, n: nat)
    decreases n
  {
    && v.depth(candidate) && v.limits(candidate) && v.depth(RoundDown(v, candidate))
    && (CloseEnough(v, candidate) || n == 0 || ChecksPass(v, RoundDown(v, candidate), n - 1))
  }

  lemma {:induction false} IterateNeverGrows(v: Venues, candidate: real, n: nat)
    ensures Iterate(v, candidate, n) <= candidate
    decreases n
  {
    if n > 0 {
      IterateNeverGrows(v, RoundDown(v, candidate), n - 1);
    }
  }

  lemma FixedIsCloseEnough(v: Venues, x: real)
    requires Fixed(v, x) && x > 0.0
    ensures RoundDown(v, x) == x && CloseEnough(v, x)
  {
  }

  lemma {:induction false} FixedIsIterated(v: Venues, x: real, n: nat)
    requires Fixed(v, x) && x > 0.0
    ensures Iterate(v, x, n) == x
  {
    FixedIsCloseEnough(v, x);
    if n > 0 {
      FixedIsIterated(v, x, n - 1);
    }
  }

  lemma CloseLotIsFixed(v: Venues, x: real)
    requires LotRounding(v.buy) && LotRounding(v.sell) && Separated(v, x) && IsLot(v, x) && x > 0.0
    ensures CloseEnough(v, x) && RoundDown(v, x) > 0.0 <==> Fixed(v, x)
  {
    assert v.buy(x) <= x && v.sell(x) <= x;
    if Fixed(v, x) {
      FixedIsCloseEnough(v, x);
    }
    if CloseEnough(v, x) && RoundDown(v, x) > 0.0 {
      PositiveRoundDown(v, x);
    }
  }

  lemma LastAttemptSucceedsExactlyWhen(v: Venues, candidate: real)
    requires LotRounding(v.buy) && LotRounding(v.sell) && SeparatedUpTo(v, candidate) && IsLot(v, candidate)
    ensures AlignFrom(v, candidate, ATTEMPTS).Aligned? <==> ChecksPass(v, candidate, 0) && candidate > 0.0 && Fixed(v, candidate)
    ensures AlignFrom(v, candidate, ATTEMPTS).Aligned? ==> AlignFrom(v, candidate, ATTEMPTS).quantity == candidate
  {
    if candidate > 0.0 {
      CloseLotIsFixed(v, candidate);
      if Fixed(v, candidate) {
        FixedIsCloseEnough(v, candidate);
      }
    }
  }

  lemma {:induction false} SucceedsFromExactlyWhen(v: Venues, candidate: real, n: nat)
    requires LotRounding(v.buy) && LotRounding(v.sell) && SeparatedUpTo(v, candidate)
    requires n < ATTEMPTS && (n == 0 ==> IsLot(v, candidate))
    ensures AlignFrom(v, candidate, ATTEMPTS - n).Aligned? <==>
            ChecksPass(v, candidate, n) && Iterate(v, candidate, n) > 0.0 && Fixed(v, Iterate(v, candidate, n))
    ensures AlignFrom(v, candidate, ATTEMPTS - n).Aligned? ==> AlignFrom(v, candidate, ATTEMPTS - n).quantity == Iterate(v, candidate, n)
    decreases n
  {
    var next := RoundDown(v, candidate);
    if n == 0 {
      LastAttemptSucceedsExactlyWhen(v, candidate);
    } else if next <= 0.0 {
      IterateNeverGrows(v, next, n - 1);
    } else {
      PositiveRoundDown(v, candidate);
      if CloseEnough(v, candidate) {
        CloseIsFixed(v, candidate);
        FixedIsIterated(v, next, n - 1);
      } else {
        SucceedsFromExactlyWhen(v, next, n - 1);
      }
    }
  }

  /** On separated grids the four attempts succeed if and only if the checks they make pass and rounding
      three times reaches a positive quantity that both venues leave unchanged, which is the result. */
  lemma AlignmentSucceedsExactlyWhen(v: Venues, requested: real)
    requires LotRounding(v.buy) && LotRounding(v.sell) && SeparatedUpTo(v, requested)
    ensures AlignFrom(v, requested, 1).Aligned? <==>
            ChecksPass(v, requested, 3) && Iterate(v, requested, 3) > 0.0 && Fixed(v, Iterate(v, requested, 3))
    ensures AlignFrom(v, requested, 1).Aligned? ==> AlignFrom(v, requested, 1).quantity == Iterate(v, requested, 3)
  {
    SucceedsFromExactlyWhen(v, requested, 3);
  }

  /** Every amount the coarser venue rounds to is already a lot of the finer one. */
  ghost predicate Refines(coarse: real -> real, fine: real -> real) {
    forall x :: fine(coarse(x)) == coarse(x)
  }

  lemma CoarseRoundingIsFixed(v: Venues, requested: real)
    requires LotRounding(v.buy) && LotRounding(v.sell)
    requires Refines(v.buy, v.sell) || Refines(v.sell, v.buy)
    requires RoundDown(v, requested) > 0.0
    ensures Fixed(v, RoundDown(v, requested))
  {
    var b, s := v.buy(requested), v.sell(requested);
    assert v.buy(b) == b <= requested && v.sell(s) == s <= requested;
    if Refines(v.buy, v.sell) {
      assert v.sell(b) == b && v.sell(b) <= v.sell(requested);
    } else {
      assert v.buy(s) == s && v.buy(s) <= v.buy(requested);
    }
  }

  /** When every lot of one venue is a lot of the other, the loop succeeds by its second attempt if and
      only if the rounded quantity is positive and the checks it makes on the way pass. */
  lemma NestedLotsAlignByAttemptTwo(v: Venues, requested: real)
    requires LotRounding(v.buy) && LotRounding(v.sell)
    requires Refines(v.buy, v.sell) || Refines(v.sell, v.buy)
    ensures var q := RoundDown(v, requested);
            var r := AlignFrom(v, requested, 1);
            && (r.Aligned? <==> v.depth(requested) && v.limits(requested) && q > 0.0 && v.depth(q) && (CloseEnough(v, requested) || v.limits(q)))
            && (r.Aligned? ==> r.quantity == q && r.attempt <= 2)
  {
    var q := RoundDown(v, requested);
    if q > 0.0 {
      CoarseRoundingIsFixed(v, requested);
      FixedIsCloseEnough(v, q);
      assert AlignFrom(v, q, 2) == if !v.depth(q) then Failed(DepthGone) else if !v.limits(q) then Failed(LimitBroken) else Aligned(q, 2);
    }
  }
}
