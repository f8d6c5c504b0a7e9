/** The capped loop that closes a residual imbalance, against an exchange that answers adversarially. */
module EmergencyHedge {
  import opened Numbers

  datatype HedgeSide = HedgeBuy | HedgeSell

  const NEGLIGIBLE := 0.000000000001

  datatype Risk = Risk(enabled: bool, maxQuote: real, maxAttempts: int, slippageBps: real)

  /** What the exchange and the risk gate answer during one attempt. `filled` is the largest fill any
      read reports; it may exceed the requested amount. */
  datatype Answer = Answer(topPrice: Option<real>, gateApproves: bool, beforeSubmission: bool, submission: Submission)

  /** Errors before the submission are told apart from errors of the submission or of what follows it. */
  datatype Submission = Outcome(filled: real) | OutcomeErrored

  datatype Attempt =
    | BlockedByBook | DivisionFailed | CapExhausted | BlockedByGate
    | ErrorBeforeSubmission | ErrorAfterSubmission(amount: real) | Submitted(amount: real, filled: real)

  datatype HedgeState = HedgeState(remaining: real, filled: real, quoteUsed: real)

  predicate Stops(a: Attempt) {
    !a.ErrorBeforeSubmission? && !a.Submitted?
  }

  function LimitPrice(side: HedgeSide, top: real, slippageBps: real): real {
    var slip := Max(0.0, slippageBps) / 10000.0;
    if side == HedgeSell then Product(top, 1.0 - slip) else Product(top, 1.0 + slip)
  }

  /** What one unit of base costs in the common currency at the limit price. */
  function UnitCost(side: HedgeSide, top: real, r: Risk, rate: real): real {
    Product(LimitPrice(side, top, r.slippageBps), rate)
  }

  function Budget(s: HedgeState, r: Risk): real {
    Max(0.0, r.maxQuote - s.quoteUsed)
  }

  function AmountFor(s: HedgeState, unit: real, r: Risk): real
    requires unit != 0.0
  {
    Min(s.remaining, Budget(s, r) / unit)
  }

  /** One attempt: what is decided, and how the totals move. */
  function Try(s: HedgeState, side: HedgeSide, r: Risk, rate: real, a: Answer): (Attempt, HedgeState) {
    if a.topPrice.None? || a.topPrice.value <= 0.0 then (BlockedByBook, s)
    else
      var unit := UnitCost(side, a.topPrice.value, r, rate);
      if unit == 0.0 then (DivisionFailed, s)
      else
        var amount := AmountFor(s, unit, r);
        if amount <= NEGLIGIBLE then (CapExhausted, s)
        else if !a.gateApproves then (BlockedByGate, s)
        else if a.beforeSubmission then (ErrorBeforeSubmission, s)
        else if a.submission.OutcomeErrored? then (ErrorAfterSubmission(amount), s)
        else
          var filled := Min(amount, a.submission.filled);
          (Submitted(amount, filled), HedgeState(Max(0.0, s.remaining - filled), s.filled + filled, s.quoteUsed + Product(filled, unit)))
  }

  /** Fills are normalised to nonnegative numbers before the loop sees them. */
  ghost predicate NonnegativeFills(answers: seq<Answer>) {
    forall a :: a in answers && a.submission.Outcome? ==> a.submission.filled >= 0.0
  }

  ghost predicate Balanced(s: HedgeState, initial: real, r: Risk) {
    && s.remaining + s.filled == initial && s.remaining >= 0.0 && s.filled >= 0.0
    && 0.0 <= s.quoteUsed <= Max(0.0, r.maxQuote)
  }

  lemma FillFitsCap(filled: real, amount: real, unit: real, budget: real)
    requires unit > 0.0 && 0.0 <= filled <= amount <= budget / unit
    ensures 0.0 <= Product(filled, unit) <= budget
  {
    MulIsNonnegative(filled, unit);
    MulOrders(filled, budget / unit, unit);
    DivCancels(budget, unit);
  }

  lemma NegativeUnitIsExhausted(s: HedgeState, r: Risk, unit: real)
    requires unit < 0.0
    ensures AmountFor(s, unit, r) <= 0.0
  {
    var budget := Budget(s, r);
    var q := budget / -unit;
    DivIsPositive(budget, -unit);
    DivCancels(budget, -unit);
    MulDivCancels(-q, unit);
    assert -q * unit == budget;
  }

  /** Whatever the exchange answers, an attempt keeps filled plus remaining and the cap. */
  lemma TryKeepsBalance(s: HedgeState, side: HedgeSide, r: Risk, rate: real, a: Answer, initial: real)
    requires Balanced(s, initial, r) && (a.submission.Outcome? ==> a.submission.filled >= 0.0)
    ensures Balanced(Try(s, side, r, rate, a).1, initial, r)
  {
    if Try(s, side, r, rate, a).0.Submitted? {
      var unit := UnitCost(side, a.topPrice.value, r, rate);
      if unit < 0.0 {
        NegativeUnitIsExhausted(s, r, unit);
      } else {
        FillFitsCap(Min(AmountFor(s, unit, r), a.submission.filled), AmountFor(s, unit, r), unit, Budget(s, r));
      }
    }
  }

  lemma ProductSign(a: real, b: real)
    requires a > 0.0
    ensures Product(a, b) == 0.0 <==> b == 0.0
    ensures Product(b, a) == 0.0 <==> b == 0.0
    ensures Product(a, b) > 0.0 <==> b > 0.0
    ensures Product(b, a) > 0.0 <==> b > 0.0
  {
    MulKeepsSign(b, a);
  }

  lemma UnitVanishesExactlyWhen(side: HedgeSide, top: real, r: Risk, rate: real)
    requires rate > 0.0 && top > 0.0
    ensures UnitCost(side, top, r, rate) == 0.0 <==> side == HedgeSell && r.slippageBps == 10000.0
  {
    var slip := Max(0.0, r.slippageBps) / 10000.0;
    ProductSign(rate, LimitPrice(side, top, r.slippageBps));
    ProductSign(top, if side == HedgeSell then 1.0 - slip else 1.0 + slip);
    assert slip >= 0.0 && (slip == 1.0 <==> r.slippageBps == 10000.0);
  }

  /** Dividing by a zero limit price: the sell price vanishes when the allowed slippage is everything. */
  lemma DivisionFailsExactlyWhen(s: HedgeState, side: HedgeSide, r: Risk, rate: real, a: Answer)
    requires rate > 0.0
    ensures Try(s, side, r, rate, a).0 == DivisionFailed <==>
            a.topPrice.Some? && a.topPrice.value > 0.0 && side == HedgeSell && r.slippageBps == 10000.0
  {
    if a.topPrice.Some? && a.topPrice.value > 0.0 {
      UnitVanishesExactlyWhen(side, a.topPrice.value, r, rate);
    }
  }

  /** The division error can only strike the first attempt, so no fill of the run is lost with it. */
  lemma DivisionFailureLosesNothing(s: HedgeState, side: HedgeSide, r: Risk, rate: real, a: Answer, b: Answer)
    requires rate > 0.0 && !Stops(Try(s, side, r, rate, a).0)
    ensures Try(Try(s, side, r, rate, a).1, side, r, rate, b).0 != DivisionFailed
  {
    DivisionFailsExactlyWhen(s, side, r, rate, a);
    DivisionFailsExactlyWhen(Try(s, side, r, rate, a).1, side, r, rate, b);
  }

  datatype Status = NotRequired | Disabled | Blocked | DivisionError | Completed | Partial | Failed

  datatype Hedge = Hedge(status: Status, side: Option<HedgeSide>, requested: real, filled: real, remaining: real, quoteUsed: real)

  function StatusOf(s: HedgeState): Status {
    if s.remaining <= NEGLIGIBLE then Completed else if s.filled > 0.0 then Partial else Failed
  }

  /** The attempts a sequence of answers leads to. The loop ends at the first attempt that stops it, or
      when nothing is left. */
  function Attempts(s: HedgeState, side: HedgeSide, r: Risk, rate: real, answers: seq<Answer>): (seq<Attempt>, HedgeState)
    decreases |answers|
  {
    if answers == [] || s.remaining <= NEGLIGIBLE then ([], s)
    else
      var (attempt, next) := Try(s, side, r, rate, answers[0]);
      if Stops(attempt) then ([attempt], next)
      else
        var rest := Attempts(next, side, r, rate, answers[1..]);
        ([attempt] + rest.0, rest.1)
  }

  /** Whatever the exchange answers, for any number of attempts: filled plus remaining is the initial
      magnitude and the quote used stays within the cap. */
  lemma {:induction false} AttemptsKeepBalance(s: HedgeState, side: HedgeSide, r: Risk, rate: real, answers: seq<Answer>, initial: real)
    requires Balanced(s, initial, r) && NonnegativeFills(answers)
    ensures Balanced(Attempts(s, side, r, rate, answers).1, initial, r)
    decreases |answers|
  {
    if answers != [] && s.remaining > NEGLIGIBLE {
      assert answers[0] in answers;
      TryKeepsBalance(s, side, r, rate, answers[0], initial);
      AttemptsKeepBalance(Try(s, side, r, rate, answers[0]).1, side, r, rate, answers[1..], initial);
    }
  }

  lemma AttemptsAppend(done: seq<Attempt>, s: HedgeState, side: HedgeSide, r: Risk, rate: real, answers: seq<Answer>)
    requires answers != [] && s.remaining > NEGLIGIBLE
    ensures var (attempt, next) := Try(s, side, r, rate, answers[0]);
            if Stops(attempt) then Attempts(s, side, r, rate, answers) == ([attempt], next)
            else
              && done + Attempts(s, side, r, rate, answers).0 == done + [attempt] + Attempts(next, side, r, rate, answers[1..]).0
              && Attempts(s, side, r, rate, answers).1 == Attempts(next, side, r, rate, answers[1..]).1
  {
  }

  /** The attempt loop, with its running totals. */
  method RunAttempts(start: HedgeState, side: HedgeSide, r: Risk, rate: real, answers: seq<Answer>) returns (attempts: seq<Attempt>, s: HedgeState)
    ensures (attempts, s) == Attempts(start, side, r, rate, answers)
  {
    attempts, s := [], start;
    var i := 0;
    assert answers[0..] == answers && [] + Attempts(s, side, r, rate, answers).0 == Attempts(s, side, r, rate, answers).0;
    while i < |answers| && s.remaining > NEGLIGIBLE
      invariant i <= |answers|
      invariant attempts + Attempts(s, side, r, rate, answers[i..]).0 == Attempts(start, side, r, rate, answers).0
      invariant Attempts(s, side, r, rate, answers[i..]).1 == Attempts(start, side, r, rate, answers).1
    {
      AttemptsAppend(attempts, s, side, r, rate, answers[i..]);
      assert answers[i..][1..] == answers[i + 1..] && answers[i..][0] == answers[i];
      var attempt, next := TryOnce(s, side, r, rate, answers[i]);
      attempts, s := attempts + [attempt], next;
      if Stops(attempt) {
        return;
      }
      i := i + 1;
    }
    assert attempts + [] == attempts;
  }

  /** One attempt as the loop body performs it. */
  method TryOnce(s: HedgeState, side: HedgeSide, r: Risk, rate: real, a: Answer) returns (attempt: Attempt, next: HedgeState)
    ensures (attempt, next) == Try(s, side, r, rate, a)
  {
    next := s;
    if a.topPrice.None? || a.topPrice.value <= 0.0 {
      return BlockedByBook, s;
    }
    var slip := Max(0.0, r.slippageBps) / 10000.0;
    var price := if side == HedgeSell then Product(a.topPrice.value, 1.0 - slip) else Product(a.topPrice.value, 1.0 + slip);
    var budget := Max(0.0, r.maxQuote - s.quoteUsed);
    var unit := Product(price, rate);
    if unit == 0.0 {
      return DivisionFailed, s;
    }
    var amount := Min(s.remaining, budget / unit);
    if amount <= NEGLIGIBLE {
      return CapExhausted, s;
    }
    if !a.gateApproves {
      return BlockedByGate, s;
    }
    if a.beforeSubmission {
      return ErrorBeforeSubmission, s;
    }
    match a.submission {
      case OutcomeErrored => attempt := ErrorAfterSubmission(amount);
      case Outcome(reported) =>
        var filled := Min(amount, reported);
        next := HedgeState(Max(0.0, s.remaining - filled), s.filled + filled, s.quoteUsed + Product(filled, unit));
        attempt := Submitted(amount, filled);
    }
  }

  /** The run of attempts that a result reports. */
  ghost predicate Reports(h: Hedge, attempts: seq<Attempt>, r: Risk, rate: real, answers: seq<Answer>) {
    h.side.Some? && (attempts, HedgeState(h.remaining, h.filled, h.quoteUsed)) == Attempts(HedgeState(h.requested, 0.0, 0.0), h.side.value, r, rate, answers)
  }

  /** The hedge over adversarial answers, one per allowed attempt. `source` tells whether the filled leg
      and its positive quote rate could be identified. */
  method ExecuteEmergencyHedge(imbalance: real, r: Risk, source: Option<real>, answers: seq<Answer>) returns (h: Hedge, attempts: seq<Attempt>)
    requires |answers| == if r.maxAttempts > 1 then r.maxAttempts else 1
    requires NonnegativeFills(answers)
    ensures h.requested == Abs(imbalance) && Balanced(HedgeState(h.remaining, h.filled, h.quoteUsed), h.requested, r)
    ensures h.side == if h.requested <= NEGLIGIBLE then None else if imbalance > 0.0 then Some(HedgeSell) else Some(HedgeBuy)
    ensures h.status == NotRequired <==> h.requested <= NEGLIGIBLE
    ensures h.status == Disabled <==> h.requested > NEGLIGIBLE && !r.enabled
    ensures h.status == Blocked <==> h.requested > NEGLIGIBLE && r.enabled && (r.maxQuote <= 0.0 || source.None?)
    ensures if h.status in {NotRequired, Disabled, Blocked} then attempts == [] && h.filled == 0.0
            else source.Some? && Reports(h, attempts, r, source.value, answers)
    // after the attempts: an arithmetic error, nothing left, something filled, or nothing filled
    ensures h.status !in {NotRequired, Disabled, Blocked} ==>
              && (h.status == DivisionError <==> attempts != [] && attempts[|attempts| - 1].DivisionFailed?)
              && (h.status == Completed ==> h.remaining <= 0.000000000001)
              && (h.status == Partial ==> h.filled > 0.0 && h.remaining > 0.000000000001)
              && (h.status == Failed ==> h.filled == 0.0 && h.remaining > 0.000000000001)
  {
    var side := if imbalance > 0.0 then HedgeSell else HedgeBuy;
    var requested := Abs(imbalance);
    attempts := [];
    if requested <= NEGLIGIBLE {
      return Hedge(NotRequired, None, requested, 0.0, requested, 0.0), attempts;
    }
    if !r.enabled {
      return Hedge(Disabled, Some(side), requested, 0.0, requested, 0.0), attempts;
    }
    if r.maxQuote <= 0.0 || source.None? {
      return Hedge(Blocked, Some(side), requested, 0.0, requested, 0.0), attempts;
    }
    var s: HedgeState;
    attempts, s := RunAttempts(HedgeState(requested, 0.0, 0.0), side, r, source.value, answers);
    AttemptsKeepBalance(HedgeState(requested, 0.0, 0.0), side, r, source.value, answers, requested);
    var status := if attempts != [] && attempts[|attempts| - 1] == DivisionFailed then DivisionError else StatusOf(s);
    h := Hedge(status, Some(side), requested, s.filled, s.remaining, s.quoteUsed);
  }

  // ---- safety of the loop ----

  /** The attempt sent a request to the exchange. */
  predicate Sends(a: Attempt) {
    a.Submitted? || a.ErrorAfterSubmission?
  }

  /** No request is sent without a book price and the risk gate's approval in the same attempt, and none after
      an error before its submission. */
  lemma {:induction false} RequestsWereApproved(s: HedgeState, side: HedgeSide, r: Risk, rate: real, answers: seq<Answer>, i: nat)
    requires i < |Attempts(s, side, r, rate, answers).0| && Sends(Attempts(s, side, r, rate, answers).0[i])
    ensures i < |answers| && answers[i].gateApproves && !answers[i].beforeSubmission
    ensures answers[i].topPrice.Some? && answers[i].topPrice.value > 0.0
    decreases |answers|
  {
    var (attempt, next) := Try(s, side, r, rate, answers[0]);
    if i > 0 {
      RequestsWereApproved(next, side, r, rate, answers[1..], i - 1);
    }
  }

  /** The hedge goes on after this attempt: it was filled in part or not at all, or failed before anything was
      submitted. */
  predicate GoesOn(a: Attempt) {
    a == ErrorBeforeSubmission || a.Submitted?
  }

  /** The loop never gives up early: it ends only when every allowed attempt was made, at most a negligible
      part is left, or its last attempt was blocked, could not be computed or has an unknown outcome. */
  lemma {:induction false} AttemptsEndExactlyWhen(s: HedgeState, side: HedgeSide, r: Risk, rate: real, answers: seq<Answer>)
    ensures var (attempts, end) := Attempts(s, side, r, rate, answers);
            && |attempts| <= |answers|
            && (forall i :: 0 <= i < |attempts| - 1 ==> GoesOn(attempts[i]))
            && (|attempts| == |answers| || end.remaining <= 0.000000000001 || (attempts != [] && !GoesOn(attempts[|attempts| - 1])))
    decreases |answers|
  {
    if answers != [] && s.remaining > NEGLIGIBLE {
      var (attempt, next) := Try(s, side, r, rate, answers[0]);
      if !Stops(attempt) {
        AttemptsEndExactlyWhen(next, side, r, rate, answers[1..]);
        var rest := Attempts(next, side, r, rate, answers[1..]).0;
        LastOfAttempts(attempt, rest);
      }
    }
  }

  lemma LastOfAttempts(first: Attempt, rest: seq<Attempt>)
    ensures rest != [] ==> ([first] + rest)[|rest|] == rest[|rest| - 1]
    ensures forall i :: 0 < i <= |rest| ==> ([first] + rest)[i] == rest[i - 1]
  {
  }

  /** A buy may pay up to the allowed slippage above the top of the book and a sale may take up to it below,
      and what an attempt uses of the cap is its fill at that limit. */
  lemma LimitAllowsSlippage(s: HedgeState, side: HedgeSide, r: Risk, rate: real, a: Answer)
    requires a.topPrice.Some? && a.topPrice.value > 0.0 && r.slippageBps >= 0.0
    ensures var top := a.topPrice.value;
            var limit := if side == HedgeBuy then top + Product(top, r.slippageBps / 10000.0) else top - Product(top, r.slippageBps / 10000.0);
            var (attempt, next) := Try(s, side, r, rate, a);
            attempt.Submitted? ==>
              next.filled == s.filled + attempt.filled && next.quoteUsed == s.quoteUsed + Product(attempt.filled, Product(limit, rate))
  {
    MulAdds(a.topPrice.value, 1.0, r.slippageBps / 10000.0);
    MulAdds(a.topPrice.value, 1.0, -(r.slippageBps / 10000.0));
  }

  /** No attempt follows a submission whose outcome errored, so at most one request has an unknown outcome. */
  lemma {:induction false} NothingFollowsUnknownOutcome(s: HedgeState, side: HedgeSide, r: Risk, rate: real, answers: seq<Answer>, i: nat)
    requires i < |Attempts(s, side, r, rate, answers).0| && Attempts(s, side, r, rate, answers).0[i].ErrorAfterSubmission?
    ensures i == |Attempts(s, side, r, rate, answers).0| - 1
    decreases |answers|
  {
    var (attempt, next) := Try(s, side, r, rate, answers[0]);
    if i > 0 {
      NothingFollowsUnknownOutcome(next, side, r, rate, answers[1..], i - 1);
    }
  }

  /** Even counting the request of unknown outcome as wholly filled, the hedge never oversells the
      imbalance: what was recorded plus that request stays within what was asked for. */
  lemma {:induction false} UnknownOutcomeStaysWithinRemaining(s: HedgeState, side: HedgeSide, r: Risk, rate: real, answers: seq<Answer>)
    requires s.remaining >= 0.0 && NonnegativeFills(answers)
    ensures var (attempts, end) := Attempts(s, side, r, rate, answers);
            attempts != [] && attempts[|attempts| - 1].ErrorAfterSubmission? ==> 0.0 < attempts[|attempts| - 1].amount <= end.remaining
    decreases |answers|
  {
    if answers != [] && s.remaining > NEGLIGIBLE {
      var (attempt, next) := Try(s, side, r, rate, answers[0]);
      if !Stops(attempt) {
        assert answers[0] in answers;
        UnknownOutcomeStaysWithinRemaining(next, side, r, rate, answers[1..]);
        var rest := Attempts(next, side, r, rate, answers[1..]).0;
        if rest != [] {
          assert ([attempt] + rest)[|rest|] == rest[|rest| - 1];
        }
      }
    }
  }

  lemma ErroredAttemptFitsCap(s: HedgeState, side: HedgeSide, r: Risk, rate: real, a: Answer)
    requires Try(s, side, r, rate, a).0.ErrorAfterSubmission? && s.quoteUsed <= r.maxQuote
    ensures a.topPrice.Some?
    ensures s.quoteUsed + Product(Try(s, side, r, rate, a).0.amount, UnitCost(side, a.topPrice.value, r, rate)) <= r.maxQuote
  {
    var unit := UnitCost(side, a.topPrice.value, r, rate);
    if unit < 0.0 {
      NegativeUnitIsExhausted(s, r, unit);
    } else {
      FillFitsCap(AmountFor(s, unit, r), AmountFor(s, unit, r), unit, Budget(s, r));
    }
  }

  /** The request of unknown outcome, at whichever attempt it happened, also fits what was left of the cap
      then: even wholly filled at its own limit price it keeps the quote used within the cap. */
  lemma {:induction false} UnknownOutcomeStaysWithinCap(s: HedgeState, side: HedgeSide, r: Risk, rate: real, answers: seq<Answer>, initial: real)
    requires Balanced(s, initial, r) && NonnegativeFills(answers) && r.maxQuote >= 0.0
    ensures |Attempts(s, side, r, rate, answers).0| <= |answers|
    ensures var (attempts, end) := Attempts(s, side, r, rate, answers);
            attempts != [] && attempts[|attempts| - 1].ErrorAfterSubmission? ==>
              && answers[|attempts| - 1].topPrice.Some?
              && end.quoteUsed + Product(attempts[|attempts| - 1].amount, UnitCost(side, answers[|attempts| - 1].topPrice.value, r, rate)) <= r.maxQuote
    decreases |answers|
  {
    if answers != [] && s.remaining > NEGLIGIBLE {
      assert answers[0] in answers;
      var (attempt, next) := Try(s, side, r, rate, answers[0]);
      if attempt.ErrorAfterSubmission? {
        ErroredAttemptFitsCap(s, side, r, rate, answers[0]);
      } else if !Stops(attempt) {
        TryKeepsBalance(s, side, r, rate, answers[0], initial);
        UnknownOutcomeStaysWithinCap(next, side, r, rate, answers[1..], initial);
        LastOfRest(attempt, Attempts(next, side, r, rate, answers[1..]).0, answers);
      }
    }
  }

  lemma LastOfRest(first: Attempt, rest: seq<Attempt>, answers: seq<Answer>)
    requires |rest| < |answers|
    ensures |[first] + rest| <= |answers|
    ensures rest != [] ==> ([first] + rest)[|rest|] == rest[|rest| - 1] && answers[|rest|] == answers[1..][|rest| - 1]
  {
  }

  // ---- applying the result ----

  datatype FillStatus = FillStatus(buyFilled: real, sellFilled: real, imbalance: real, hedgeRequired: bool, hedgeSide: Option<HedgeSide>, hedgeBase: real)

  function ApplyHedge(f: FillStatus, h: Hedge): FillStatus {
    var buy := if h.side == Some(HedgeBuy) then f.buyFilled + h.filled else f.buyFilled;
    var sell := if h.side == Some(HedgeSell) then f.sellFilled + h.filled else f.sellFilled;
    var imbalance := buy - sell;
    FillStatus(buy, sell, imbalance, Abs(imbalance) > NEGLIGIBLE,
               if imbalance > 0.0 then Some(HedgeSell) else if imbalance < 0.0 then Some(HedgeBuy) else None, Abs(imbalance))
  }

  /** Applying a hedge of the status' own imbalance leaves an imbalance whose magnitude is exactly what
      remains and whose sign never flips. */
  lemma ApplyingLeavesRemaining(f: FillStatus, h: Hedge)
    requires f.imbalance == f.buyFilled - f.sellFilled
    requires h.requested == Abs(f.imbalance) && h.filled + h.remaining == h.requested && h.filled >= 0.0 && h.remaining >= 0.0
    requires h.side == if h.requested <= NEGLIGIBLE then None else if f.imbalance > 0.0 then Some(HedgeSell) else Some(HedgeBuy)
    requires h.side == None ==> h.filled == 0.0
    ensures var u := ApplyHedge(f, h);
            && Abs(u.imbalance) == h.remaining == u.hedgeBase
            && u.imbalance == (if f.imbalance >= 0.0 then h.remaining else -h.remaining)
            && (u.hedgeRequired <==> h.remaining > NEGLIGIBLE)
            && (u.hedgeSide.Some? && h.side.Some? ==> u.hedgeSide == h.side)
  {
  }

  /** The whole correction: execute, then apply. */
  method HedgeAndApply(f: FillStatus, r: Risk, source: Option<real>, answers: seq<Answer>) returns (u: FillStatus, h: Hedge)
    requires f.imbalance == f.buyFilled - f.sellFilled
    requires |answers| == (if r.maxAttempts > 1 then r.maxAttempts else 1) && NonnegativeFills(answers)
    ensures Abs(u.imbalance) == h.remaining <= Abs(f.imbalance)
    ensures u.imbalance == if f.imbalance >= 0.0 then h.remaining else -h.remaining
    ensures 0.0 <= h.quoteUsed <= Max(0.0, r.maxQuote)
  {
    var attempts: seq<Attempt>;
    h, attempts := ExecuteEmergencyHedge(f.imbalance, r, source, answers);
    ApplyingLeavesRemaining(f, h);
    u := ApplyHedge(f, h);
  }
}
