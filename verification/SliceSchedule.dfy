/** The slice schedule of TWAP, VWAP and POV plans. */
module SliceSchedule {
  import opened Numbers

  datatype Algo = Twap | Vwap | Pov

  /** A validated plan request: a positive target, price and slice count. */
  datatype Request = Request(
    algo: Algo, target: real, price: real, count: nat, duration: real, interval: real,
    depth: real, participation: real, minSlice: real, maxSlice: real)

  datatype Slice = Slice(index: nat, scheduledAt: real, amount: real, notional: real, marketVolume: real)

  datatype Schedule = Schedule(slices: seq<Slice>, remaining: real)

  ghost predicate Valid(r: Request) {
    r.target > 0.0 && r.price > 0.0 && r.count > 0 && r.depth >= 0.0 && r.participation >= 0.0
  }

  /** Flat weights, or heavier towards both ends. */
  function Weight(algo: Algo, count: nat, index: nat): (w: real)
    ensures w > 0.0
  {
    if algo == Twap || count == 1 then 1.0
    else
      var center := (count as real - 1.0) / 2.0;
      DivIsPositive(Abs(index as real - center), Max(center, 1.0));
      0.75 + Abs(index as real - center) / Max(center, 1.0)
  }

  function WeightSum(algo: Algo, count: nat, n: nat): (w: real)
    ensures n > 0 ==> w > 0.0
    ensures w >= 0.0
  {
    if n == 0 then 0.0 else WeightSum(algo, count, n - 1) + Weight(algo, count, n - 1)
  }

  function Bounded(value: real, minValue: real, maxValue: real): real {
    var capped := if maxValue > 0.0 then Min(value, maxValue) else value;
    if minValue > 0.0 && 0.0 < capped < minValue then minValue else capped
  }

  /** What a slice asks for before the remaining target and the bounds apply. */
  function Wanted(r: Request, index: nat, remaining: real): real
    requires r.count > 0
  {
    if r.algo == Pov then
      (if Product(r.depth, r.participation) <= 0.0 then Min(remaining, r.target / r.count as real) else Product(r.depth, r.participation))
    else Share(r.target, Weight(r.algo, r.count, index), WeightSum(r.algo, r.count, r.count))
  }

  function MarketVolume(r: Request, index: nat): real
    requires r.count > 0
  {
    if r.algo == Pov then r.depth else Share(r.depth, Weight(r.algo, r.count, index), WeightSum(r.algo, r.count, r.count))
  }

  function Notional(r: Request, index: nat, remaining: real): real
    requires r.count > 0
  {
    Min(Bounded(Min(Wanted(r, index, remaining), remaining), r.minSlice, r.maxSlice), remaining)
  }

  function SliceAt(r: Request, index: nat, notional: real): Slice
    requires r.count > 0 && r.price > 0.0
  {
    Slice(index + 1, Min(r.duration, Product(index as real, r.interval)), notional / r.price, notional, MarketVolume(r, index))
  }

  /** The schedule after the first `n` slice positions. */
  function ScheduleTo(r: Request, n: nat): Schedule
    requires r.count > 0 && r.price > 0.0
  {
    if n == 0 then Schedule([], r.target)
    else
      var before := ScheduleTo(r, n - 1);
      var notional := Notional(r, n - 1, before.remaining);
      if before.remaining <= 0.0 || notional <= 0.0 then before
      else Schedule(before.slices + [SliceAt(r, n - 1, notional)], before.remaining - notional)
  }

  lemma {:induction false} ExhaustedStays(r: Request, n: nat, m: nat)
    requires Valid(r) && n <= m && ScheduleTo(r, n).remaining <= 0.0
    ensures ScheduleTo(r, m) == ScheduleTo(r, n)
  {
    if n < m {
      ExhaustedStays(r, n, m - 1);
    }
  }

  /** The schedule loop, which stops when nothing remains. */
  method BuildSchedule(r: Request) returns (slices: seq<Slice>)
    requires Valid(r)
    ensures slices == ScheduleTo(r, r.count).slices
  {
    slices := [];
    var remaining := r.target;
    var total := SumWeights(r.algo, r.count);
    var index := 0;
    while index < r.count && remaining > 0.0
      invariant index <= r.count
      invariant Schedule(slices, remaining) == ScheduleTo(r, index)
    {
      var volume, quote := r.depth, 0.0;
      if r.algo == Pov {
        quote := Product(volume, r.participation);
        if quote <= 0.0 {
          quote := Min(remaining, r.target / r.count as real);
        }
      } else {
        volume := Share(r.depth, Weight(r.algo, r.count, index), total);
        quote := Share(r.target, Weight(r.algo, r.count, index), total);
      }
      quote := Bounded(Min(quote, remaining), r.minSlice, r.maxSlice);
      if quote > remaining {
        quote := remaining;
      }
      if quote > 0.0 {
        slices := slices + [Slice(index + 1, Min(r.duration, Product(index as real, r.interval)), quote / r.price, quote, volume)];
        remaining := remaining - quote;
      }
      index := index + 1;
    }
    if index < r.count {
      ExhaustedStays(r, index, r.count);
    }
  }

  method SumWeights(algo: Algo, count: nat) returns (total: real)
    ensures total == WeightSum(algo, count, count)
  {
    total := 0.0;
    for i := 0 to count
      invariant total == WeightSum(algo, count, i)
    {
      total := total + Weight(algo, count, i);
    }
  }

  // ---- sums and bounds ----

  function Scheduled(slices: seq<Slice>): real {
    if slices == [] then 0.0 else Scheduled(slices[..|slices| - 1]) + slices[|slices| - 1].notional
  }

  lemma ScheduledNext(r: Request, n: nat)
    requires Valid(r) && ScheduleTo(r, n).remaining >= 0.0
    ensures var before, next := ScheduleTo(r, n), ScheduleTo(r, n + 1);
            && next.remaining >= 0.0 && Scheduled(next.slices) + next.remaining == Scheduled(before.slices) + before.remaining
            && (next == before || (|next.slices| == |before.slices| + 1 && next.slices[..|before.slices|] == before.slices && next.slices[|before.slices|].notional > 0.0))
  {
    var before, next := ScheduleTo(r, n), ScheduleTo(r, n + 1);
    if next != before {
      assert next.slices[..|before.slices|] == before.slices;
    }
  }

  /** Slices are positive and together with the rest make up the target, which they never exceed. */
  lemma {:induction false} SlicesNeverExceedTarget(r: Request, n: nat)
    requires Valid(r)
    ensures var s := ScheduleTo(r, n);
            Scheduled(s.slices) + s.remaining == r.target && s.remaining >= 0.0 && forall i :: 0 <= i < |s.slices| ==> s.slices[i].notional > 0.0
  {
    if n > 0 {
      SlicesNeverExceedTarget(r, n - 1);
      ScheduledNext(r, n - 1);
    }
  }

  /** A slice below the minimum is the last one, and it leaves nothing of the target. */
  lemma {:induction false} SmallSliceExhaustsTarget(r: Request, n: nat, i: nat)
    requires Valid(r) && i < |ScheduleTo(r, n).slices| && ScheduleTo(r, n).slices[i].notional < r.minSlice
    ensures i == |ScheduleTo(r, n).slices| - 1 && ScheduleTo(r, n).remaining == 0.0
  {
    var before, next := ScheduleTo(r, n - 1), ScheduleTo(r, n);
    if i < |before.slices| {
      SmallSliceExhaustsTarget(r, n - 1, i);
    }
  }

  /** Slices respect the maximum when it is at least the minimum. */
  lemma {:induction false} SlicesRespectMaximum(r: Request, n: nat)
    requires Valid(r) && r.maxSlice > 0.0 && r.minSlice <= r.maxSlice
    ensures forall i :: 0 <= i < |ScheduleTo(r, n).slices| ==> ScheduleTo(r, n).slices[i].notional <= r.maxSlice
  {
    if n > 0 {
      SlicesRespectMaximum(r, n - 1);
    }
  }

  /** A slice taken from what remains breaks the maximum exactly when the minimum is above it and more
      than the maximum remains. */
  lemma MaximumIsBrokenExactlyWhen(r: Request, index: nat, remaining: real)
    requires Valid(r) && r.maxSlice > 0.0 && remaining > 0.0 && Wanted(r, index, remaining) > 0.0
    ensures Notional(r, index, remaining) > r.maxSlice <==> remaining > r.maxSlice && r.minSlice > r.maxSlice
  {
    if r.minSlice > r.maxSlice {
      assert Notional(r, index, remaining) == Min(r.minSlice, remaining);
    }
  }

  lemma WantedIsPositive(r: Request, index: nat, remaining: real)
    requires Valid(r) && remaining > 0.0
    ensures Wanted(r, index, remaining) > 0.0
  {
    if r.algo == Pov {
      DivIsPositive(r.target, r.count as real);
    } else {
      ShareIsPositive(r.target, Weight(r.algo, r.count, index), WeightSum(r.algo, r.count, r.count));
    }
  }

  lemma {:induction false} FirstSliceStays(r: Request, n: nat)
    requires Valid(r) && n > 0 && Notional(r, 0, r.target) > 0.0
    ensures |ScheduleTo(r, n).slices| > 0 && ScheduleTo(r, n).slices[0].notional == Notional(r, 0, r.target)
  {
    if n > 1 {
      FirstSliceStays(r, n - 1);
    } else {
      assert ScheduleTo(r, 0) == Schedule([], r.target);
    }
  }

  lemma {:induction false} SlicesFitTarget(r: Request, n: nat)
    requires Valid(r)
    ensures ScheduleTo(r, n).remaining <= r.target
    ensures forall i :: 0 <= i < |ScheduleTo(r, n).slices| ==> ScheduleTo(r, n).slices[i].notional <= r.target
  {
    if n > 0 {
      SlicesFitTarget(r, n - 1);
    }
  }

  /** A whole schedule breaks a maximum exactly when the minimum is above it and so is the target. */
  lemma ScheduleBreaksMaximumExactlyWhen(r: Request)
    requires Valid(r) && r.maxSlice > 0.0
    ensures (exists i :: 0 <= i < |ScheduleTo(r, r.count).slices| && ScheduleTo(r, r.count).slices[i].notional > r.maxSlice) <==>
            r.minSlice > r.maxSlice && r.target > r.maxSlice
  {
    var slices := ScheduleTo(r, r.count).slices;
    if r.minSlice > r.maxSlice && r.target > r.maxSlice {
      WantedIsPositive(r, 0, r.target);
      MaximumIsBrokenExactlyWhen(r, 0, r.target);
      FirstSliceStays(r, r.count);
      assert slices[0].notional > r.maxSlice;
    }
    if i :| 0 <= i < |slices| && slices[i].notional > r.maxSlice {
      SlicesFitTarget(r, r.count);
      if r.minSlice <= r.maxSlice {
        SlicesRespectMaximum(r, r.count);
      }
    }
  }

  // ---- TWAP and VWAP are exact ----

  function Even(r: Request, n: nat): real
    requires r.count > 0
  {
    Share(r.target, WeightSum(r.algo, r.count, n), WeightSum(r.algo, r.count, r.count))
  }

  lemma ShareAdds(amount: real, a: real, b: real, total: real)
    requires total > 0.0
    ensures Share(amount, a + b, total) == Share(amount, a, total) + Share(amount, b, total)
  {
    MulAdds(amount, a, b);
    DivAdds(amount * a, amount * b, total);
  }

  lemma ShareIsPositive(amount: real, weight: real, total: real)
    requires amount > 0.0 && weight > 0.0 && total > 0.0
    ensures Share(amount, weight, total) > 0.0
  {
    MulIsPositive(amount, weight);
    DivIsPositive(amount * weight, total);
  }

  lemma WholeShare(amount: real, total: real)
    requires total > 0.0
    ensures Share(amount, total, total) == amount && Share(amount, 0.0, total) == 0.0
  {
    MulDivCancels(amount, total);
  }

  /** Without a maximum a slice takes at least its even share, or all that remains. */
  lemma SliceTakesItsShare(r: Request, index: nat, remaining: real)
    requires Valid(r) && r.algo != Pov && r.maxSlice <= 0.0 && remaining > 0.0
    ensures Notional(r, index, remaining) > 0.0
    ensures Notional(r, index, remaining) >= Min(Wanted(r, index, remaining), remaining)
  {
    ShareIsPositive(r.target, Weight(r.algo, r.count, index), WeightSum(r.algo, r.count, r.count));
  }

  lemma {:induction false} NeverBehindEvenPace(r: Request, n: nat)
    requires Valid(r) && r.algo != Pov && r.maxSlice <= 0.0 && n <= r.count
    ensures ScheduleTo(r, n).remaining <= Max(0.0, r.target - Even(r, n))
  {
    var total := WeightSum(r.algo, r.count, r.count);
    if n == 0 {
      WholeShare(r.target, total);
    } else {
      NeverBehindEvenPace(r, n - 1);
      var before := ScheduleTo(r, n - 1);
      ShareAdds(r.target, WeightSum(r.algo, r.count, n - 1), Weight(r.algo, r.count, n - 1), total);
      if before.remaining > 0.0 {
        SliceTakesItsShare(r, n - 1, before.remaining);
      }
    }
  }

  /** TWAP and VWAP schedules without a maximum sum exactly to the target, even when the minimum
      enlarges their early slices. */
  lemma EvenScheduleIsExact(r: Request)
    requires Valid(r) && r.algo != Pov && r.maxSlice <= 0.0
    ensures Scheduled(ScheduleTo(r, r.count).slices) == r.target
  {
    NeverBehindEvenPace(r, r.count);
    WholeShare(r.target, WeightSum(r.algo, r.count, r.count));
    SlicesNeverExceedTarget(r, r.count);
  }

  // ---- the shape of a schedule ----

  lemma WeightFromCenter(distance: real, center: real)
    requires center >= 1.0
    ensures distance == center ==> 0.75 + distance / center == 1.75
    ensures distance == 0.0 ==> 0.75 + distance / center == 0.75
    ensures 0.0 <= distance <= center ==> 0.75 <= 0.75 + distance / center <= 1.75
  {
    DivIsPositive(distance, center);
    DivOrders(distance, center, center);
    MulDivCancels(1.0, center);
  }

  /** TWAP weighs every slice the same. From three slices on VWAP and POV weigh both ends 1.75, an exact
      middle 0.75, every other slice in between, and slices at equal distance from the middle alike. */
  lemma WeightsAreUShaped(algo: Algo, count: nat, i: nat)
    requires count >= 3 && i < count
    ensures Weight(Twap, count, i) == 1.0
    ensures algo != Twap ==>
              && 0.75 <= Weight(algo, count, i) <= 1.75
              && (i == 0 || i == count - 1 ==> Weight(algo, count, i) == 1.75)
              && (2 * i == count - 1 ==> Weight(algo, count, i) == 0.75)
              && Weight(algo, count, i) == Weight(algo, count, count - 1 - i)
  {
    var center := (count as real - 1.0) / 2.0;
    assert (count - 1 - i) as real == count as real - 1.0 - i as real;
    WeightFromCenter(Abs(i as real - center), center);
    assert 0.0 <= i as real <= count as real - 1.0;
  }

  /** TWAP and VWAP expect the same share of the volume for a slice as it takes of the target. */
  lemma VolumeFollowsTarget(r: Request, index: nat, remaining: real)
    requires Valid(r) && r.algo != Pov
    ensures Product(MarketVolume(r, index), r.target) == Product(Wanted(r, index, remaining), r.depth)
  {
    SharesAgree(r.depth, r.target, Weight(r.algo, r.count, index), WeightSum(r.algo, r.count, r.count));
  }

  lemma SharesAgree(a: real, b: real, weight: real, total: real)
    requires total > 0.0
    ensures Product(Share(a, weight, total), b) == Product(Share(b, weight, total), a)
  {
    var part := weight / total;
    assert Share(a, weight, total) == a * part;
    assert Share(b, weight, total) == b * part;
    MulReorders(a, part, b);
    MulReorders(b, part, a);
  }

  /** A slice is due one interval after the one before it, never after the plan's duration, and buys its
      notional at the plan's price. */
  ghost predicate Due(s: Slice, r: Request, n: nat) {
    && 1 <= s.index <= n && s.scheduledAt <= r.duration
    && (Product((s.index - 1) as real, r.interval) <= r.duration ==> s.scheduledAt == Product((s.index - 1) as real, r.interval))
    && Product(s.amount, r.price) == s.notional
  }

  lemma SliceAtIsDue(r: Request, index: nat, notional: real)
    requires Valid(r)
    ensures Due(SliceAt(r, index, notional), r, index + 1)
  {
    DivCancels(notional, r.price);
  }

  ghost predicate DueInOrder(slices: seq<Slice>, r: Request, n: nat) {
    && (forall i :: 0 <= i < |slices| ==> Due(slices[i], r, n))
    && forall i :: 0 < i < |slices| ==> slices[i - 1].index < slices[i].index
  }

  lemma DueNext(slices: seq<Slice>, r: Request, n: nat, next: Slice)
    requires DueInOrder(slices, r, n) && Due(next, r, n + 1) && next.index == n + 1
    ensures DueInOrder(slices + [next], r, n + 1)
  {
  }

  lemma ScheduleNext(r: Request, n: nat)
    requires Valid(r)
    ensures var before, next := ScheduleTo(r, n), ScheduleTo(r, n + 1);
            next == before || next.slices == before.slices + [SliceAt(r, n, Notional(r, n, before.remaining))]
  {
  }

  /** Every slice of a schedule is due in its order. */
  lemma {:induction false} SlicesAreDueInOrder(r: Request, n: nat)
    requires Valid(r)
    ensures DueInOrder(ScheduleTo(r, n).slices, r, n)
  {
    if n > 0 {
      var before := ScheduleTo(r, n - 1);
      var notional := Notional(r, n - 1, before.remaining);
      SlicesAreDueInOrder(r, n - 1);
      ScheduleNext(r, n - 1);
      SliceAtIsDue(r, n - 1, notional);
      DueNext(before.slices, r, n - 1, SliceAt(r, n - 1, notional));
    }
  }

  /** Without a minimum a POV slice never takes more than its share of the expected volume. */
  lemma {:induction false} SlicesRespectParticipation(r: Request, n: nat, i: nat)
    requires Valid(r) && r.algo == Pov && r.minSlice <= 0.0 && r.depth > 0.0 && r.participation > 0.0
    requires i < |ScheduleTo(r, n).slices|
    ensures ScheduleTo(r, n).slices[i].notional <= Product(ScheduleTo(r, n).slices[i].marketVolume, r.participation)
  {
    var before := ScheduleTo(r, n - 1);
    if i < |before.slices| {
      SlicesRespectParticipation(r, n - 1, i);
    } else {
      MulIsPositive(r.depth, r.participation);
    }
  }

  lemma {:induction false} TwapWeightsCount(count: nat, n: nat)
    ensures WeightSum(Twap, count, n) == n as real
  {
    if n > 0 {
      TwapWeightsCount(count, n - 1);
    }
  }

  lemma TwapWants(r: Request, index: nat, remaining: real)
    requires Valid(r) && r.algo == Twap && r.minSlice <= 0.0 && r.maxSlice <= 0.0 && remaining >= r.target / r.count as real
    ensures Notional(r, index, remaining) == r.target / r.count as real
  {
    TwapWeightsCount(r.count, r.count);
  }

  lemma EqualSharesFit(target: real, share: real, n: real, count: real)
    requires share > 0.0 && Product(share, count) == target && n + 1.0 <= count
    ensures target - Product(n, share) >= share && Product(n + 1.0, share) == Product(n, share) + share
  {
    MulAdds(share, n, 1.0);
    MulOrders(n + 1.0, count, share);
  }

  lemma TwapNext(r: Request, n: nat, share: real)
    requires Valid(r) && r.algo == Twap && r.minSlice <= 0.0 && r.maxSlice <= 0.0 && share == r.target / r.count as real
    requires share > 0.0 && ScheduleTo(r, n).remaining >= share
    ensures ScheduleTo(r, n + 1) == Schedule(ScheduleTo(r, n).slices + [SliceAt(r, n, share)], ScheduleTo(r, n).remaining - share)
  {
    TwapWants(r, n, ScheduleTo(r, n).remaining);
  }

  lemma ShareIsWhole(r: Request, share: real)
    requires Valid(r) && share == r.target / r.count as real
    ensures share > 0.0 && Product(share, r.count as real) == r.target
  {
    DivIsPositive(r.target, r.count as real);
    DivCancels(r.target, r.count as real);
  }

  /** An unbounded TWAP plan cuts the target into equal slices. */
  lemma {:induction false} TwapSlicesAreEqual(r: Request, n: nat, share: real)
    requires Valid(r) && r.algo == Twap && r.minSlice <= 0.0 && r.maxSlice <= 0.0 && n <= r.count && share == r.target / r.count as real
    ensures ScheduleTo(r, n).remaining == r.target - Product(n as real, share)
    ensures |ScheduleTo(r, n).slices| == n && forall i :: 0 <= i < n ==> ScheduleTo(r, n).slices[i].notional == share
  {
    if n > 0 {
      TwapSlicesAreEqual(r, n - 1, share);
      ShareIsWhole(r, share);
      EqualSharesFit(r.target, share, (n - 1) as real, r.count as real);
      TwapNext(r, n - 1, share);
    }
  }
}
