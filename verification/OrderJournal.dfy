/** The journal of order intents: which answer a reservation gives, and what every interleaving of
    create calls, requests, crashes, outcomes, recoveries and compactions keeps. */
module OrderJournal {

  datatype Status = Reserved | Unknown | Submitted | Recovered | Canceled | Failed | ReconciledAbsent

  datatype Market = Market(exchange: string, symbol: string)

  /** The order a client id stands for. The stored hash identifies it. */
  datatype Intent = Intent(market: Market, side: string, amount: real, price: real, postOnly: bool, params: string)

  datatype Row = Row(
    intent: Intent, status: Status, orderId: string, attempts: nat,
    createdAt: real, updatedAt: real, retryAfter: real)

  type Journal = map<string, Row>

  datatype Action = Collision | ReturnExisting | FailedBefore | RecoverOnly | Submit

  const RECOVERY_WAIT := 5.0
  const IN_FLIGHT_GRACE := 30.0

  predicate Settled(s: Status) {
    s == Submitted || s == Recovered || s == Canceled
  }

  /** A row the search for pending intents returns. */
  predicate Pending(s: Status) {
    s == Reserved || s == Unknown
  }

  /** A pending row whose outcome must be reconciled: unknown, or reserved for longer than the grace. */
  predicate Uncertain(r: Row, now: real) {
    r.status == Unknown || (r.status == Reserved && r.updatedAt <= now - IN_FLIGHT_GRACE)
  }

  predicate Blocks(j: Journal, other: string, id: string, market: Market, now: real) {
    other in j && other != id && j[other].intent.market == market && Uncertain(j[other], now)
  }

  /** Some other uncertain intent quarantines the market of this one. */
  predicate Quarantined(j: Journal, id: string, market: Market, now: real) {
    exists other :: other in j && Blocks(j, other, id, market, now)
  }

  /** The reservation guard: a row that is neither settled nor failed and whose wait is over. */
  predicate Renewable(r: Row, now: real) {
    !Settled(r.status) && r.status != Failed && r.retryAfter <= now
  }

  function ActionFor(j: Journal, id: string, intent: Intent, now: real): Action {
    if id !in j then Submit
    else if j[id].intent != intent then Collision
    else if Settled(j[id].status) then ReturnExisting
    else if j[id].status == Failed then FailedBefore
    else if j[id].retryAfter > now then RecoverOnly
    else Submit
  }

  function ReservedRow(j: Journal, id: string, intent: Intent, now: real): Row {
    if id in j
    then j[id].(status := Reserved, attempts := j[id].attempts + 1, updatedAt := now, retryAfter := now + RECOVERY_WAIT)
    else Row(intent, Reserved, "", 1, now, now, now + RECOVERY_WAIT)
  }

  function AfterReserve(j: Journal, id: string, intent: Intent, now: real): Journal {
    if ActionFor(j, id, intent, now) == Submit then j[id := ReservedRow(j, id, intent, now)] else j
  }

  /** The ways a row's outcome is recorded. */
  datatype Outcome =
    | AsSubmitted(orderId: string) | AsRecovered(orderId: string) | AsUnknown | AsFailed | AsAbsent

  function MarkedRow(r: Row, o: Outcome, now: real): Row {
    match o
    case AsSubmitted(orderId) => r.(status := Submitted, orderId := orderId, updatedAt := now, retryAfter := 0.0)
    case AsRecovered(orderId) => r.(status := Recovered, orderId := orderId, updatedAt := now, retryAfter := 0.0)
    case AsUnknown => r.(status := Unknown, updatedAt := now, retryAfter := now + RECOVERY_WAIT)
    case AsFailed => r.(status := Failed, updatedAt := now, retryAfter := 0.0)
    case AsAbsent =>
      if Pending(r.status)
      then r.(status := ReconciledAbsent, orderId := "", updatedAt := now, retryAfter := 0.0)
      else r
  }

  function Mark(j: Journal, id: string, o: Outcome, now: real): Journal {
    if id in j then j[id := MarkedRow(j[id], o, now)] else j
  }

  function MarkCanceled(j: Journal, market: Market, orderId: string, now: real): Journal {
    map id | id in j :: if j[id].intent.market == market && j[id].orderId == orderId
                        then j[id].(status := Canceled, updatedAt := now, retryAfter := 0.0) else j[id]
  }

  /** Compaction removes rows that are not pending: those older than the cutoff and an overflow. */
  function Compacted(j: Journal, cutoff: real, overflow: set<string>): Journal {
    map id | id in j && (Pending(j[id].status) || (j[id].updatedAt >= cutoff && id !in overflow)) :: j[id]
  }

  // ---- the store ----

  class OrderIntentStore {
    var rows: Journal

    constructor ()
      ensures rows == map[]
    {
      rows := map[];
    }

    method Reserve(id: string, intent: Intent, now: real) returns (action: Action)
      modifies this
      ensures action == ActionFor(old(rows), id, intent, now)
      ensures rows == AfterReserve(old(rows), id, intent, now)
    {
      if id in rows {
        var existing := rows[id];
        if existing.intent != intent {
          return Collision;
        }
        if Settled(existing.status) {
          return ReturnExisting;
        }
        if existing.status == Failed {
          return FailedBefore;
        }
        if existing.retryAfter > now {
          return RecoverOnly;
        }
        rows := rows[id := existing.(status := Reserved, attempts := existing.attempts + 1, updatedAt := now, retryAfter := now + RECOVERY_WAIT)];
      } else {
        rows := rows[id := Row(intent, Reserved, "", 1, now, now, now + RECOVERY_WAIT)];
      }
      action := Submit;
    }

    method MarkOutcome(id: string, o: Outcome, now: real)
      modifies this
      ensures rows == Mark(old(rows), id, o, now)
    {
      if id in rows {
        rows := rows[id := MarkedRow(rows[id], o, now)];
      }
    }

    method MarkCanceledByOrderId(market: Market, orderId: string, now: real)
      modifies this
      ensures rows == MarkCanceled(old(rows), market, orderId, now)
    {
      rows := map id | id in rows :: if rows[id].intent.market == market && rows[id].orderId == orderId
                                     then rows[id].(status := Canceled, updatedAt := now, retryAfter := 0.0) else rows[id];
    }

    /** Some other intent of the market has an unknown outcome, or was reserved 30 seconds ago or earlier. */
    method FirstUncertain(market: Market, exclude: string, now: real) returns (found: bool)
      ensures found <==> Quarantined(rows, exclude, market, now)
      ensures found <==> exists other :: other in rows && other != exclude && rows[other].intent.market == market
                           && (rows[other].status == Unknown || (rows[other].status == Reserved && now - rows[other].updatedAt >= 30.0))
    {
      var ids := rows.Keys;
      found := false;
      while ids != {} && !found
        invariant ids <= rows.Keys
        invariant found ==> Quarantined(rows, exclude, market, now)
        invariant !found ==> forall other :: other in rows && Blocks(rows, other, exclude, market, now) ==> other in ids
        decreases ids
      {
        var other :| other in ids;
        ids := ids - {other};
        found := Blocks(rows, other, exclude, market, now);
      }
    }

    method Compact(cutoff: real, overflow: set<string>)
      modifies this
      ensures rows == Compacted(old(rows), cutoff, overflow)
    {
      rows := map id | id in rows && (Pending(rows[id].status) || (rows[id].updatedAt >= cutoff && id !in overflow)) :: rows[id];
    }
  }

  // ---- the protocol ----

  /** The journal survives crashes; permits are grants whose request has not reached the exchange yet.
      `granted` and `sent` count the grants and the create requests per client id, `retired` holds the
      ids whose rows were compacted away. */
  datatype System = System(
    journal: Journal, now: real, granted: multiset<string>, permits: multiset<string>, sent: multiset<string>,
    retired: set<string>, lastGrant: map<string, real>)

  datatype Event =
    | Wait(seconds: real)
    | Create(id: string, intent: Intent)
    | Send(id: string)
    | Drop(id: string)
    | Crash
    | Learn(id: string, outcome: Outcome)
    | CancelConfirmed(market: Market, orderId: string)
    | Compact(cutoff: real, overflow: set<string>)

  const EMPTY := System(map[], 0.0, multiset{}, multiset{}, multiset{}, {}, map[])

  predicate Grants(s: System, ev: Event) {
    ev.Create? && !Quarantined(s.journal, ev.id, ev.intent.market, s.now) && ActionFor(s.journal, ev.id, ev.intent, s.now) == Submit
  }

  function Step(s: System, ev: Event): System {
    match ev
    case Wait(seconds) => if seconds >= 0.0 then s.(now := s.now + seconds) else s
    case Create(id, intent) =>
      if Grants(s, ev)
      then s.(journal := AfterReserve(s.journal, id, intent, s.now), granted := s.granted + multiset{id},
              permits := s.permits + multiset{id}, retired := s.retired - {id}, lastGrant := s.lastGrant[id := s.now])
      else s
    case Send(id) => if id in s.permits then s.(permits := s.permits - multiset{id}, sent := s.sent + multiset{id}) else s
    case Drop(id) => s.(permits := s.permits - multiset{id})
    case Crash => s.(permits := multiset{})
    case Learn(id, o) => s.(journal := Mark(s.journal, id, o, s.now))
    case CancelConfirmed(market, orderId) => s.(journal := MarkCanceled(s.journal, market, orderId, s.now))
    case Compact(cutoff, overflow) =>
      var kept := Compacted(s.journal, cutoff, overflow);
      s.(journal := kept, retired := s.retired + (s.journal.Keys - kept.Keys))
  }

  function Run(events: seq<Event>): System {
    if events == [] then EMPTY else Step(Run(events[..|events| - 1]), events[|events| - 1])
  }

  /** A grant for an id that was granted before: the row is renewable, or compaction removed it. */
  predicate Regrants(s: System, ev: Event, id: string) {
    && ev.Create? && ev.id == id && !Quarantined(s.journal, id, ev.intent.market, s.now)
    && ((id in s.journal && s.journal[id].intent == ev.intent && Renewable(s.journal[id], s.now)) || id in s.retired)
  }

  ghost predicate Counted(s: System, id: string) {
    && s.sent[id] + s.permits[id] <= s.granted[id]
    && (s.granted[id] > 0 <==> id in s.journal || id in s.retired)
    && !(id in s.journal && id in s.retired)
  }

  /** A pending row waits at least the recovery wait after the latest grant of its id. */
  ghost predicate Waits(s: System, id: string) {
    id in s.journal ==>
      && id in s.lastGrant && s.lastGrant[id] <= s.now
      && (Pending(s.journal[id].status) ==> s.journal[id].retryAfter >= s.lastGrant[id] + RECOVERY_WAIT)
  }

  lemma StepCounts(s: System, ev: Event, id: string)
    requires Counted(s, id)
    ensures Counted(Step(s, ev), id)
    ensures Step(s, ev).granted[id] == s.granted[id] + (if Grants(s, ev) && ev.id == id then 1 else 0)
    ensures Grants(s, ev) && ev.id == id && s.granted[id] > 0 <==> Regrants(s, ev, id)
  {
  }

  lemma StepWaits(s: System, ev: Event, id: string)
    requires Waits(s, id)
    ensures Waits(Step(s, ev), id)
  {
  }

  lemma {:induction false} RunCounts(events: seq<Event>, id: string)
    ensures Counted(Run(events), id) && Waits(Run(events), id)
  {
    if events != [] {
      var n := |events| - 1;
      RunCounts(events[..n], id);
      StepCounts(Run(events[..n]), events[n], id);
      StepWaits(Run(events[..n]), events[n], id);
    }
  }

  /** No create call of the run meets a renewable or compacted row of the id. */
  ghost predicate NoRegrant(events: seq<Event>, id: string) {
    forall k :: 0 <= k < |events| ==> !Regrants(Run(events[..k]), events[k], id)
  }

  lemma NoRegrantSplits(events: seq<Event>, id: string)
    requires events != []
    ensures var n := |events| - 1;
            NoRegrant(events, id) <==> NoRegrant(events[..n], id) && !Regrants(Run(events[..n]), events[n], id)
  {
    var before := events[..|events| - 1];
    assert forall k :: 0 <= k < |before| ==> before[..k] == events[..k];
    if NoRegrant(before, id) && !Regrants(Run(before), events[|before|], id) {
      forall k | 0 <= k < |events|
        ensures !Regrants(Run(events[..k]), events[k], id)
      {
        if k < |before| {
          assert !Regrants(Run(before[..k]), before[k], id);
        }
      }
    }
    if NoRegrant(events, id) {
      forall k | 0 <= k < |before|
        ensures !Regrants(Run(before[..k]), before[k], id)
      {
        assert !Regrants(Run(events[..k]), events[k], id);
      }
    }
  }

  lemma OneMoreGrant(s: System, ev: Event, id: string)
    requires Counted(s, id)
    ensures Step(s, ev).granted[id] <= 1 <==> s.granted[id] <= 1 && !Regrants(s, ev, id)
  {
    StepCounts(s, ev, id);
  }

  /** The exact condition for at most one submission: over any run, an id is granted at most once if
      and only if no create call meets a renewable or compacted row of that id. */
  lemma {:induction false} GrantedAtMostOnceExactlyWhen(events: seq<Event>, id: string)
    ensures Run(events).granted[id] <= 1 <==> NoRegrant(events, id)
  {
    if events != [] {
      var n := |events| - 1;
      GrantedAtMostOnceExactlyWhen(events[..n], id);
      RunCounts(events[..n], id);
      OneMoreGrant(Run(events[..n]), events[n], id);
      NoRegrantSplits(events, id);
    }
  }

  /** The exchange never receives more create requests for an id than the journal granted, whatever
      crashes, retries and recoveries interleave. So, under the condition above, at most one. */
  lemma SentAtMostOnce(events: seq<Event>, id: string)
    requires NoRegrant(events, id)
    ensures Run(events).sent[id] <= 1
  {
    GrantedAtMostOnceExactlyWhen(events, id);
    RunCounts(events, id);
  }

  lemma RequestsWereGranted(events: seq<Event>, id: string)
    ensures Run(events).sent[id] <= Run(events).granted[id]
  {
    RunCounts(events, id);
  }

  /** Two grants of one id are at least five seconds apart, unless in between its absence was
      reconciled or its row compacted. */
  lemma GrantsAreSpaced(events: seq<Event>, ev: Event)
    requires Grants(Run(events), ev) && Run(events).granted[ev.id] > 0
    ensures var s := Run(events);
            || ev.id in s.retired
            || (ev.id in s.journal && s.journal[ev.id].status == ReconciledAbsent)
            || (ev.id in s.lastGrant && s.now >= s.lastGrant[ev.id] + 5.0)
  {
    RunCounts(events, ev.id);
  }

  lemma SentIsJournaled(events: seq<Event>, id: string)
    requires Run(events).sent[id] > 0
    ensures id in Run(events).journal || id in Run(events).retired
  {
    RunCounts(events, id);
  }

  // ---- what later events keep ----

  /** The state after further events from any state. */
  function RunOn(s: System, events: seq<Event>): System
    decreases |events|
  {
    if events == [] then s else RunOn(Step(s, events[0]), events[1..])
  }

  predicate PendingIn(s: System, id: string) {
    id in s.journal && Pending(s.journal[id].status)
  }

  /** An event that ends a pending row: any outcome but an unknown one, or a confirmed cancellation. */
  predicate Ends(s: System, ev: Event, id: string) {
    || (ev.Learn? && ev.id == id && !ev.outcome.AsUnknown?)
    || (ev.CancelConfirmed? && id in s.journal && s.journal[id].intent.market == ev.market && s.journal[id].orderId == ev.orderId)
  }

  ghost predicate StaysPending(s: System, events: seq<Event>, id: string)
    decreases |events|
  {
    PendingIn(s, id) && (events == [] || StaysPending(Step(s, events[0]), events[1..], id))
  }

  ghost predicate NothingEnds(s: System, events: seq<Event>, id: string)
    decreases |events|
  {
    events == [] || (!Ends(s, events[0], id) && NothingEnds(Step(s, events[0]), events[1..], id))
  }

  /** A row leaves the journal only by compaction, and never while it is pending. */
  lemma PendingIsNeverForgotten(s: System, ev: Event, id: string)
    requires id in s.journal
    ensures id in Step(s, ev).journal || (ev.Compact? && !Pending(s.journal[id].status) && id in Step(s, ev).retired)
  {
  }

  lemma EndsPending(s: System, ev: Event, id: string)
    requires PendingIn(s, id)
    ensures PendingIn(Step(s, ev), id) <==> !Ends(s, ev, id)
  {
    PendingIsNeverForgotten(s, ev, id);
  }

  /** A request that may have reached the exchange is on record until its outcome is known: through any
      crashes, retries and compactions a pending intent stays pending, so every later recovery finds it,
      if and only if no event has ended it. */
  lemma {:induction false} PendingStaysExactlyWhen(s: System, events: seq<Event>, id: string)
    requires PendingIn(s, id)
    ensures StaysPending(s, events, id) <==> NothingEnds(s, events, id)
    decreases |events|
  {
    if events != [] {
      EndsPending(s, events[0], id);
      if PendingIn(Step(s, events[0]), id) {
        PendingStaysExactlyWhen(Step(s, events[0]), events[1..], id);
      }
    }
  }

  predicate Finished(s: System, id: string) {
    id in s.journal && (Settled(s.journal[id].status) || s.journal[id].status == Failed)
  }

  /** An event that records another outcome for the id, or whose compaction removes its row. Finding the
      order absent is no outcome once it is settled or failed. */
  predicate Reopens(s: System, ev: Event, id: string) {
    (ev.Learn? && ev.id == id && !ev.outcome.AsAbsent?) || (ev.Compact? && id in s.journal && (s.journal[id].updatedAt < ev.cutoff || id in ev.overflow))
  }

  ghost predicate NothingReopens(s: System, events: seq<Event>, id: string)
    decreases |events|
  {
    events == [] || (!Reopens(s, events[0], id) && NothingReopens(Step(s, events[0]), events[1..], id))
  }

  /** A settled or failed intent is not granted, and stays settled or failed. */
  lemma SettledIsNeverGranted(s: System, ev: Event, id: string)
    requires Finished(s, id)
    ensures !(Grants(s, ev) && ev.id == id)
    ensures !Reopens(s, ev, id) ==> Finished(Step(s, ev), id)
  {
  }

  /** Compaction removes exactly the rows that are not pending and are older than the cutoff or in the
      overflow. */
  lemma CompactionRemovesExactly(s: System, cutoff: real, overflow: set<string>, id: string)
    requires id in s.journal
    ensures id !in Step(s, Compact(cutoff, overflow)).journal
            <==> s.journal[id].status != Reserved && s.journal[id].status != Unknown && (s.journal[id].updatedAt < cutoff || id in overflow)
    ensures id in Step(s, Compact(cutoff, overflow)).journal ==> Step(s, Compact(cutoff, overflow)).journal[id] == s.journal[id]
  {
  }

  lemma FinishedNext(s: System, ev: Event, id: string)
    requires Finished(s, id) && !Reopens(s, ev, id)
    ensures var next := Step(s, ev);
            Finished(next, id) && next.granted[id] == s.granted[id] && next.sent[id] + next.permits[id] <= s.sent[id] + s.permits[id]
  {
    SettledIsNeverGranted(s, ev, id);
  }

  /** Once an order is settled, canceled or rejected, its id is not granted again until a later outcome is
      recorded for it or compaction removes its row: any further request uses a permit already out. */
  lemma {:induction false} FinishedIsNotGrantedAgain(s: System, events: seq<Event>, id: string)
    requires Finished(s, id) && NothingReopens(s, events, id)
    ensures var after := RunOn(s, events);
            && Finished(after, id) && after.granted[id] == s.granted[id]
            && after.sent[id] + after.permits[id] <= s.sent[id] + s.permits[id]
    decreases |events|
  {
    if events != [] {
      FinishedNext(s, events[0], id);
      FinishedIsNotGrantedAgain(Step(s, events[0]), events[1..], id);
    }
  }

  // ---- quarantine ----

  /** An event that settles an intent or renews its reservation. */
  predicate Touches(s: System, ev: Event, id: string) {
    || (ev.Learn? && ev.id == id)
    || (ev.CancelConfirmed? && id in s.journal && s.journal[id].intent.market == ev.market && s.journal[id].orderId == ev.orderId)
    || (Grants(s, ev) && ev.id == id)
  }

  // ---- quarantine by age ----

  ghost predicate NothingTouches(s: System, events: seq<Event>, id: string)
    decreases |events|
  {
    events == [] || (!Touches(s, events[0], id) && NothingTouches(Step(s, events[0]), events[1..], id))
  }

  lemma UntouchedRowStays(s: System, ev: Event, id: string)
    requires PendingIn(s, id) && !Touches(s, ev, id)
    ensures var next := Step(s, ev);
            id in next.journal && next.journal[id] == s.journal[id] && next.now >= s.now
  {
  }

  lemma {:induction false} UntouchedRowStaysOn(s: System, events: seq<Event>, id: string)
    requires PendingIn(s, id) && NothingTouches(s, events, id)
    ensures var after := RunOn(s, events);
            id in after.journal && after.journal[id] == s.journal[id] && after.now >= s.now
    decreases |events|
  {
    if events != [] {
      UntouchedRowStays(s, events[0], id);
      UntouchedRowStaysOn(Step(s, events[0]), events[1..], id);
    }
  }

  /** Once an intent is uncertain, no other id is reserved on its market by any later create call until
      some event settles that intent or renews its reservation. */
  lemma UncertainIntentBlocksMarket(s: System, id: string, events: seq<Event>, ev: Event)
    requires id in s.journal && Uncertain(s.journal[id], s.now) && NothingTouches(s, events, id)
    requires ev.Create? && ev.id != id && ev.intent.market == s.journal[id].intent.market
    ensures Refuses(RunOn(s, events), ev)
  {
    UntouchedRowStaysOn(s, events, id);
    OldRowRefuses(RunOn(s, events), id, ev);
  }

  /** A create call that reserves nothing. */
  predicate Refuses(s: System, ev: Event) {
    ev.Create? && Step(s, ev) == s
  }

  lemma OldRowRefuses(s: System, id: string, ev: Event)
    requires id in s.journal && ev.Create? && ev.id != id && ev.intent.market == s.journal[id].intent.market
    requires s.journal[id].status == Unknown || (s.journal[id].status == Reserved && s.now - s.journal[id].updatedAt >= 30.0)
    ensures Refuses(s, ev)
  {
    assert Blocks(s.journal, id, ev.id, ev.intent.market, s.now);
  }

  lemma GrantReserves(s: System, id: string, intent: Intent)
    requires Step(s, Create(id, intent)).granted[id] > s.granted[id]
    ensures var next := Step(s, Create(id, intent));
            && PendingIn(next, id) && next.journal[id].status == Reserved && next.journal[id].updatedAt == s.now && next.now == s.now
            && (id !in s.journal ==> next.journal[id].intent == intent)
            && next.journal[id].attempts == (if id in s.journal then s.journal[id].attempts + 1 else 1)
            && next.journal[id].intent.market == intent.market
  {
  }

  /** A reservation whose outcome is never learned, as after a crash, quarantines its market: 30 seconds
      after the grant, and as long as no event settles or renews it, every create call of another id on
      that market is refused. */
  lemma CrashedReservationBlocksMarket(s: System, id: string, intent: Intent, events: seq<Event>, ev: Event)
    requires Step(s, Create(id, intent)).granted[id] > s.granted[id]
    requires NothingTouches(Step(s, Create(id, intent)), events, id)
    requires var after := RunOn(Step(s, Create(id, intent)), events);
             after.now - s.now >= 30.0 && ev.Create? && ev.id != id && ev.intent.market == intent.market
    ensures Refuses(RunOn(Step(s, Create(id, intent)), events), ev)
  {
    GrantReserves(s, id, intent);
    UntouchedRowStaysOn(Step(s, Create(id, intent)), events, id);
    OldRowRefuses(RunOn(Step(s, Create(id, intent)), events), id, ev);
  }

  /** An intent of unknown outcome quarantines its market at once, for as long. */
  lemma UnknownIntentBlocksMarket(s: System, id: string, events: seq<Event>, ev: Event)
    requires id in s.journal && s.journal[id].status == Unknown && NothingTouches(s, events, id)
    requires ev.Create? && ev.id != id && ev.intent.market == s.journal[id].intent.market
    ensures Refuses(RunOn(s, events), ev)
  {
    UntouchedRowStaysOn(s, events, id);
    OldRowRefuses(RunOn(s, events), id, ev);
  }

  /** Only such intents quarantine a market: when every other intent on it is settled, failed, absent or
      reserved for less than 30 seconds, a new id is granted. */
  lemma YoungReservationsRefuseNothing(s: System, id: string, intent: Intent)
    requires id !in s.journal
    requires forall other :: other in s.journal && s.journal[other].intent.market == intent.market ==>
               s.journal[other].status != Unknown && (s.journal[other].status == Reserved ==> s.now - s.journal[other].updatedAt < 30.0)
    ensures Step(s, Create(id, intent)).granted[id] == s.granted[id] + 1
  {
    assert !Quarantined(s.journal, id, intent.market, s.now);
  }

  // ---- the condition is needed ----

  lemma RunAppend(events: seq<Event>, ev: Event)
    ensures Run(events + [ev]) == Step(Run(events), ev)
  {
  }

  lemma FirstSubmission(id: string, intent: Intent)
    ensures var e := [Create(id, intent), Send(id)];
            var row := Row(intent, Reserved, "", 1, 0.0, 0.0, RECOVERY_WAIT);
            Run(e) == System(map[id := row], 0.0, multiset{id}, multiset{}, multiset{id}, {}, map[id := 0.0])
  {
    var e := [Create(id, intent), Send(id)];
    assert e[..1][..0] == [] && e[..1] == [Create(id, intent)];
    assert Run([]) == EMPTY && Run(e[..1]) == Step(EMPTY, e[0]);
    assert Run(e) == Step(Run(e[..1]), e[1]);
  }

  lemma RunTwoMore(events: seq<Event>, a: Event, b: Event)
    ensures Run(events + [a, b]) == Step(Step(Run(events), a), b)
  {
    RunAppend(events, a);
    RunAppend(events + [a], b);
    assert events + [a] + [b] == events + [a, b];
  }

  lemma RenewalIsSent(s: System, id: string, intent: Intent)
    requires s.journal.Keys == {id} && s.journal[id].intent == intent && Renewable(s.journal[id], s.now)
    ensures Step(Step(s, Create(id, intent)), Send(id)).sent[id] == s.sent[id] + 1
  {
    assert forall other :: other in s.journal ==> other == id;
    assert Grants(s, Create(id, intent));
  }

  lemma OutcomeStaysUnknown(s: System, id: string, intent: Intent)
    requires s.journal.Keys == {id} && s.journal[id].intent == intent
    ensures var waited := Step(Step(s, Learn(id, AsUnknown)), Wait(RECOVERY_WAIT));
            && waited.journal.Keys == {id} && waited.journal[id].intent == intent
            && Renewable(waited.journal[id], waited.now) && waited.sent == s.sent
  {
  }

  lemma SentAgain(first: seq<Event>, id: string, intent: Intent)
    requires Run(first).journal.Keys == {id} && Run(first).journal[id].intent == intent
    ensures Run(first + [Learn(id, AsUnknown), Wait(RECOVERY_WAIT)] + [Create(id, intent), Send(id)]).sent[id] == Run(first).sent[id] + 1
  {
    OutcomeStaysUnknown(Run(first), id, intent);
    RunTwoMore(first, Learn(id, AsUnknown), Wait(RECOVERY_WAIT));
    var waited := first + [Learn(id, AsUnknown), Wait(RECOVERY_WAIT)];
    RunTwoMore(waited, Create(id, intent), Send(id));
    RenewalIsSent(Run(waited), id, intent);
  }

  /** A create call whose outcome stayed unknown is sent a second time once the recovery wait is over. */
  lemma RetryAfterWaitIsSentTwice(id: string, intent: Intent, first: seq<Event>)
    requires first == [Create(id, intent), Send(id)]
    ensures Run(first + [Learn(id, AsUnknown), Wait(RECOVERY_WAIT)] + [Create(id, intent), Send(id)]).sent[id] == 2
  {
    FirstSubmission(id, intent);
    SentAgain(first, id, intent);
  }
}
