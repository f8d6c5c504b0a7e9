/** The callers of the order journal: idempotent submission, the search by client id, the recovery of
    pending intents, and the cancel loop that trusts only a read. */
module OrderRecovery {
  import opened Numbers
  import opened OrderJournal
  import opened PendingIntents
  import StableSort

  // ---- search by client id ----

  datatype RawOrder = RawOrder(id: string, clientId: string)

  datatype Listing = NoListing | ListingRaised | Listed(orders: seq<RawOrder>)

  datatype Direct = NoDirect | DirectRaised | DirectAnswered(order: Option<RawOrder>)

  /** What the exchange answers while one client id is searched. */
  datatype Reads = Reads(supported: bool, direct: Direct, open: Listing, closed: Listing)

  /** The order found, if any, and the sources that answered. */
  datatype SearchResult = SearchResult(order: Option<RawOrder>, direct: bool, open: bool, closed: bool)

  predicate Shows(l: Listing, clientId: string) {
    l.Listed? && exists i :: 0 <= i < |l.orders| && l.orders[i].clientId == clientId
  }

  predicate DirectHit(d: Direct) {
    d.DirectAnswered? && d.order.Some? && d.order.value.id != ""
  }

  predicate FoundBySearch(r: Reads, clientId: string) {
    clientId != "" && r.supported && (DirectHit(r.direct) || Shows(r.open, clientId) || Shows(r.closed, clientId))
  }

  method SearchListing(l: Listing, clientId: string) returns (answered: bool, found: Option<RawOrder>)
    ensures answered <==> l.Listed?
    ensures found.Some? <==> Shows(l, clientId)
    ensures found.Some? <==> l.Listed? && exists o :: o in l.orders && o.clientId == clientId
    ensures found.Some? ==> found.value in l.orders && found.value.clientId == clientId
  {
    answered, found := l.Listed?, None;
    if l.Listed? {
      for i := 0 to |l.orders|
        invariant found == None
        invariant forall k :: 0 <= k < i ==> l.orders[k].clientId != clientId
      {
        if l.orders[i].clientId == clientId {
          return true, Some(l.orders[i]);
        }
      }
    }
  }

  /** An order is found exactly when some source that answered shows it; when none is found, every
      source that answered is on record. */
  method SearchOrderByClientId(r: Reads, clientId: string) returns (s: SearchResult)
    ensures s.order.Some? <==> FoundBySearch(r, clientId)
    ensures s.order.Some? <==>
            clientId != "" && r.supported
            && ((r.direct.DirectAnswered? && r.direct.order.Some? && r.direct.order.value.id != "")
                || (r.open.Listed? && exists o :: o in r.open.orders && o.clientId == clientId)
                || (r.closed.Listed? && exists o :: o in r.closed.orders && o.clientId == clientId))
    // an order the exchange returns for the id itself is taken first
    ensures clientId != "" && r.supported && r.direct.DirectAnswered? && r.direct.order.Some? && r.direct.order.value.id != "" ==>
              s.order == r.direct.order
    ensures s.order.Some? && s.order != (if r.direct.DirectAnswered? then r.direct.order else None) ==> s.order.value.clientId == clientId
    ensures s.order.None? && clientId != "" && r.supported ==>
            s.direct == r.direct.DirectAnswered? && s.open == r.open.Listed? && s.closed == r.closed.Listed?
    ensures clientId == "" || !r.supported ==> !s.direct && !s.open && !s.closed
  {
    s := SearchResult(None, false, false, false);
    if clientId == "" || !r.supported {
      return;
    }
    if r.direct.DirectAnswered? {
      s := s.(direct := true);
      if r.direct.order.Some? && r.direct.order.value.id != "" {
        return s.(order := r.direct.order);
      }
    }
    var answered, found := SearchListing(r.open, clientId);
    s := s.(open := answered);
    if found.Some? {
      return s.(order := found);
    }
    answered, found := SearchListing(r.closed, clientId);
    s := s.(closed := answered);
    if found.Some? {
      s := s.(order := found);
    }
  }

  // ---- idempotent submission ----

  /** The exchange's reply to a create request. An accepted request may come back without an id. */
  datatype Reply = Accepted(orderId: string) | RejectedForGood | OutcomeUnclear

  /** `answers` answer the search that follows an unclear outcome or an unfinished reservation. */
  datatype CreateEnv = CreateEnv(now: real, later: real, reply: Reply, answers: Reads)

  datatype CreateOutcome = Placed(orderId: string) | Replayed(orderId: string) | FoundAgain(order: RawOrder) | Refused

  /** The request was sent and its outcome is still open. */
  predicate Unclear(r: Reply) {
    r.OutcomeUnclear? || (r.Accepted? && r.orderId == "")
  }

  method CreateOrderIdempotently(store: OrderIntentStore, id: string, intent: Intent, e: CreateEnv) returns (outcome: CreateOutcome, requests: nat)
    modifies store
    // one request, exactly when the market is not quarantined and the reservation grants it
    ensures requests == if !Quarantined(old(store.rows), id, intent.market, e.now) && ActionFor(old(store.rows), id, intent, e.now) == Submit then 1 else 0
    ensures requests == 1 && (e.reply.OutcomeUnclear? || e.reply == Accepted("")) ==>
              id in store.rows && store.rows[id].status == (if outcome.FoundAgain? then Recovered else Unknown)
    // none while another intent of the market is unknown or was reserved 30 seconds ago or earlier
    ensures (exists other :: other in old(store.rows) && other != id && old(store.rows)[other].intent.market == intent.market
               && (old(store.rows)[other].status == Unknown
                   || (old(store.rows)[other].status == Reserved && e.now - old(store.rows)[other].updatedAt >= 30.0)))
            ==> requests == 0 && outcome.Refused?
    // the whole effect on the journal
    ensures forall other :: other != id ==> (other in store.rows <==> other in old(store.rows))
    ensures forall other :: other != id && other in store.rows ==> store.rows[other] == old(store.rows)[other]
    ensures requests == 1 ==>
            && id in store.rows && store.rows[id].intent == intent
            && (e.reply.RejectedForGood? <==> store.rows[id].status == Failed)
            && (e.reply.Accepted? && e.reply.orderId != "" <==> store.rows[id].status == Submitted)
            && (Unclear(e.reply) && FoundBySearch(e.answers, id) <==> store.rows[id].status == Recovered)
            && (Unclear(e.reply) && !FoundBySearch(e.answers, id) <==> store.rows[id].status == Unknown)
    ensures requests == 0 && !outcome.FoundAgain? ==> store.rows == old(store.rows)
    // a result is returned only for an order on record
    ensures !outcome.Refused? ==> id in store.rows && Settled(store.rows[id].status) && store.rows[id].intent == intent
    ensures outcome.Placed? ==> requests == 1 && store.rows[id].orderId == outcome.orderId != ""
    ensures outcome.FoundAgain? ==> FoundBySearch(e.answers, id) && store.rows[id].orderId == outcome.order.id
  {
    outcome, requests := Refused, 0;
    var quarantined := store.FirstUncertain(intent.market, id, e.now);
    if quarantined {
      return;
    }
    var action := store.Reserve(id, intent, e.now);
    match action {
      case Collision => return;
      case FailedBefore => return;
      case ReturnExisting => outcome := Replayed(store.rows[id].orderId);
      case RecoverOnly =>
        outcome := RecoverById(store, id, e);
      case Submit =>
        requests := 1;
        if e.reply.RejectedForGood? {
          store.MarkOutcome(id, AsFailed, e.later);
        } else if Unclear(e.reply) {
          store.MarkOutcome(id, AsUnknown, e.later);
          outcome := RecoverById(store, id, e);
        } else {
          store.MarkOutcome(id, AsSubmitted(e.reply.orderId), e.later);
          outcome := Placed(e.reply.orderId);
        }
    }
  }

  method RecoverById(store: OrderIntentStore, id: string, e: CreateEnv) returns (outcome: CreateOutcome)
    requires id in store.rows
    modifies store
    ensures outcome.FoundAgain? || outcome.Refused?
    ensures outcome.FoundAgain? <==> FoundBySearch(e.answers, id)
    ensures store.rows == if outcome.FoundAgain? then Mark(old(store.rows), id, AsRecovered(outcome.order.id), e.later) else old(store.rows)
  {
    var search := SearchOrderByClientId(e.answers, id);
    if search.order.None? {
      return Refused;
    }
    store.MarkOutcome(id, AsRecovered(search.order.value.id), e.later);
    outcome := FoundAgain(search.order.value);
  }

  // ---- recovery of pending intents ----

  /** `rejections` are the ids whose stored error text confirms that no order was created. */
  datatype RecoveryEnv = RecoveryEnv(
    now: real, rejections: set<string>, resolveAbsent: bool, minAge: real, configured: set<string>, raises: set<string>, answers: map<string, Reads>)

  datatype Verdict = Found | ConfirmedAbsent | Unresolved

  function NoReads(): Reads {
    Reads(false, NoDirect, NoListing, NoListing)
  }

  function ReadsFor(e: RecoveryEnv, id: string): Reads {
    if id in e.answers then e.answers[id] else NoReads()
  }

  /** Absence may be confirmed: old enough, and both the current and the historical orders answered. */
  predicate AbsenceEstablished(r: Row, e: RecoveryEnv, id: string) {
    var answers := ReadsFor(e, id);
    && e.resolveAbsent && Max(0.0, e.now - r.createdAt) >= Max(0.0, e.minAge)
    && id != "" && answers.supported && answers.open.Listed? && (answers.closed.Listed? || answers.direct.DirectAnswered?)
  }

  function VerdictOn(r: Row, e: RecoveryEnv, id: string): Verdict {
    if r.intent.market.exchange !in e.configured || id in e.raises then Unresolved
    else if FoundBySearch(ReadsFor(e, id), id) then Found
    else if AbsenceEstablished(r, e, id) then ConfirmedAbsent
    else Unresolved
  }

  /** The journal after some pending rows have been judged. The order id recorded for a found row is
      whatever the exchange reported. */
  ghost predicate JudgedRow(before: Row, after: Row, e: RecoveryEnv, id: string) {
    match VerdictOn(before, e, id)
    case Found => after == before.(status := Recovered, orderId := after.orderId, updatedAt := e.now, retryAfter := 0.0)
    case ConfirmedAbsent => after == before.(status := ReconciledAbsent, orderId := "", updatedAt := e.now, retryAfter := 0.0)
    case Unresolved => after == before
  }

  ghost predicate Judged(before: Journal, after: Journal, ids: seq<string>, e: RecoveryEnv) {
    && before.Keys == after.Keys
    && (forall id :: id in before && id in ids ==> JudgedRow(before[id], after[id], e, id))
    && (forall id :: id in before && id !in ids ==> after[id] == before[id])
  }

  /** The answer of the query for pending rows: distinct ids of pending rows. */
  ghost predicate PendingQueue(j: Journal, queue: seq<string>) {
    StableSort.NoDuplicates(queue) && forall id :: id in queue ==> id in j && Pending(j[id].status)
  }

  ghost predicate Lists(j: Journal, ids: seq<string>, listed: seq<string>, v: Verdict, e: RecoveryEnv) {
    forall id :: id in listed <==> id in ids && id in j && VerdictOn(j[id], e, id) == v
  }

  lemma JudgeOne(before: Journal, after: Journal, next: Journal, queue: seq<string>, i: nat, e: RecoveryEnv)
    requires i < |queue| && PendingQueue(before, queue) && Judged(before, after, queue[..i], e)
    requires next.Keys == after.Keys && JudgedRow(before[queue[i]], next[queue[i]], e, queue[i])
    requires forall id :: id in after && id != queue[i] ==> next[id] == after[id]
    ensures Judged(before, next, queue[..i + 1], e)
  {
  }

  lemma SortOne(j: Journal, queue: seq<string>, i: nat, listed: seq<string>, v: Verdict, e: RecoveryEnv)
    requires i < |queue| && queue[i] in j && Lists(j, queue[..i], listed, v, e)
    ensures Lists(j, queue[..i + 1], AppendIf(listed, queue[i], VerdictOn(j[queue[i]], e, queue[i]) == v), v, e)
  {
  }

  /** The loop's progress: the rows judged and the three result lists. */
  ghost predicate Classified(before: Journal, after: Journal, ids: seq<string>,
                             recovered: seq<string>, absent: seq<string>, unresolved: seq<string>, e: RecoveryEnv) {
    && Judged(before, after, ids, e)
    && Lists(before, ids, recovered, Found, e)
    && Lists(before, ids, absent, ConfirmedAbsent, e)
    && Lists(before, ids, unresolved, Unresolved, e)
    && multiset(recovered) + multiset(absent) + multiset(unresolved) == multiset(ids)
  }

  function AppendIf(ids: seq<string>, id: string, appends: bool): seq<string> {
    if appends then ids + [id] else ids
  }

  lemma AppendedOnce(recovered: seq<string>, absent: seq<string>, unresolved: seq<string>, queue: seq<string>, id: string, v: Verdict)
    requires multiset(recovered) + multiset(absent) + multiset(unresolved) == multiset(queue)
    ensures multiset(AppendIf(recovered, id, v == Found)) + multiset(AppendIf(absent, id, v == ConfirmedAbsent))
            + multiset(AppendIf(unresolved, id, v == Unresolved)) == multiset(queue + [id])
  {
  }

  lemma ClassifyOne(before: Journal, after: Journal, next: Journal, queue: seq<string>, i: nat,
                    recovered: seq<string>, absent: seq<string>, unresolved: seq<string>, e: RecoveryEnv)
    requires i < |queue| && PendingQueue(before, queue) && Classified(before, after, queue[..i], recovered, absent, unresolved, e)
    requires queue[i] in before && next.Keys == after.Keys && JudgedRow(before[queue[i]], next[queue[i]], e, queue[i])
    requires forall id :: id in after && id != queue[i] ==> next[id] == after[id]
    ensures var v := VerdictOn(before[queue[i]], e, queue[i]);
            Classified(before, next, queue[..i + 1], AppendIf(recovered, queue[i], v == Found),
                       AppendIf(absent, queue[i], v == ConfirmedAbsent), AppendIf(unresolved, queue[i], v == Unresolved), e)
  {
    JudgeOne(before, after, next, queue, i, e);
    SortOne(before, queue, i, recovered, Found, e);
    SortOne(before, queue, i, absent, ConfirmedAbsent, e);
    SortOne(before, queue, i, unresolved, Unresolved, e);
    assert queue[..i + 1] == queue[..i] + [queue[i]];
    AppendedOnce(recovered, absent, unresolved, queue[..i], queue[i], VerdictOn(before[queue[i]], e, queue[i]));
  }

  /** The loop over the queried rows: each is classified exactly once, and only the judged rows change. */
  method RecoverQueue(store: OrderIntentStore, queue: seq<string>, e: RecoveryEnv)
    returns (recovered: seq<string>, absent: seq<string>, unresolved: seq<string>)
    requires PendingQueue(store.rows, queue)
    modifies store
    ensures Classified(old(store.rows), store.rows, queue, recovered, absent, unresolved, e)
  {
    recovered, absent, unresolved := [], [], [];
    ghost var before := store.rows;
    for i := 0 to |queue|
      invariant Classified(before, store.rows, queue[..i], recovered, absent, unresolved, e)
    {
      var id := queue[i];
      ghost var current := store.rows;
      NotJudgedYet(before, current, queue, i, e);
      var verdict := RecoverOne(store, id, e);
      ClassifyOne(before, current, store.rows, queue, i, recovered, absent, unresolved, e);
      match verdict {
        case Found => recovered := recovered + [id];
        case ConfirmedAbsent => absent := absent + [id];
        case Unresolved => unresolved := unresolved + [id];
      }
    }
    assert queue[..|queue|] == queue;
  }

  // ---- stored rejections ----

  /** The journal after some rows were marked failed. */
  function Reclassified(j: Journal, moved: set<string>, now: real): Journal {
    map id | id in j :: if id in moved then MarkedRow(j[id], AsFailed, now) else j[id]
  }

  /** Exactly the queued rows of unknown outcome whose stored error is a confirmed rejection are moved. */
  ghost predicate MovesRejections(j: Journal, queue: seq<string>, moved: set<string>, rejections: set<string>) {
    forall id :: id in moved <==> id in queue && id in j && j[id].status == Unknown && id in rejections
  }

  ghost predicate Reclassifies(j: Journal, f: Filter, moved: set<string>, rejections: set<string>) {
    exists queue :: OldestPending(j, f, queue, ROW_LIMIT) && MovesRejections(j, queue, moved, rejections)
  }

  lemma MoveOne(j: Journal, queue: seq<string>, i: nat, moved: set<string>, rejections: set<string>, now: real)
    requires i < |queue| && queue[i] in j && MovesRejections(j, queue[..i], moved, rejections)
    ensures var id := queue[i];
            var next := if j[id].status == Unknown && id in rejections then moved + {id} else moved;
            && MovesRejections(j, queue[..i + 1], next, rejections)
            && Reclassified(j, next, now) == if next == moved then Reclassified(j, moved, now) else Mark(Reclassified(j, moved, now), id, AsFailed, now)
  {
    assert queue[..i + 1] == queue[..i] + [queue[i]];
  }

  /** A row of unknown outcome whose stored error confirms a rejection leaves the quarantine as failed. */
  method ReclassifyRejections(store: OrderIntentStore, f: Filter, rejections: set<string>, now: real) returns (moved: set<string>)
    modifies store
    ensures Reclassifies(old(store.rows), f, moved, rejections)
    ensures store.rows == Reclassified(old(store.rows), moved, now)
  {
    var queue := PendingForMarket(store, f, 1000);
    ghost var before := store.rows;
    moved := {};
    for i := 0 to |queue|
      invariant MovesRejections(before, queue[..i], moved, rejections)
      invariant store.rows == Reclassified(before, moved, now)
    {
      var id := queue[i];
      assert Eligible(before, f, id);
      MoveOne(before, queue, i, moved, rejections, now);
      if store.rows[id].status == Unknown && id in rejections {
        store.MarkOutcome(id, AsFailed, now);
        moved := moved + {id};
      }
    }
    assert queue[..|queue|] == queue;
  }

  /** Stored rejections leave the quarantine first; then the market's remaining pending intents are judged
      oldest first, each exactly once. One is left unjudged only when the row limit is reached. */
  method RecoverPendingOrderIntents(store: OrderIntentStore, f: Filter, e: RecoveryEnv)
    returns (recovered: seq<string>, absent: seq<string>, unresolved: seq<string>, queue: seq<string>, rejected: set<string>)
    modifies store
    ensures Reclassifies(old(store.rows), f, rejected, e.rejections)
    ensures var j := Reclassified(old(store.rows), rejected, e.now);
            && OldestPending(j, f, queue, ROW_LIMIT)
            && Classified(j, store.rows, queue, recovered, absent, unresolved, e)
            && forall id :: Eligible(j, f, id) && id !in recovered && id !in absent && id !in unresolved ==>
                 |recovered| + |absent| + |unresolved| == ROW_LIMIT
  {
    rejected := ReclassifyRejections(store, f, e.rejections, e.now);
    queue := PendingForMarket(store, f, 1000);
    ghost var before := store.rows;
    recovered, absent, unresolved := RecoverQueue(store, queue, e);
    EveryQueuedIsListed(before, store.rows, queue, recovered, absent, unresolved, e);
  }

  lemma EveryQueuedIsListed(before: Journal, after: Journal, queue: seq<string>,
                            recovered: seq<string>, absent: seq<string>, unresolved: seq<string>, e: RecoveryEnv)
    requires Classified(before, after, queue, recovered, absent, unresolved, e)
    ensures |recovered| + |absent| + |unresolved| == |queue|
    ensures forall id :: id in queue ==> id in recovered || id in absent || id in unresolved
  {
    var all := recovered + absent + unresolved;
    assert multiset(all) == multiset(queue);
    assert |multiset(all)| == |all| && |multiset(queue)| == |queue|;
    forall id | id in queue
      ensures id in recovered || id in absent || id in unresolved
    {
      assert id in multiset(queue);
      assert id in multiset(all);
    }
  }

  lemma NotJudgedYet(before: Journal, after: Journal, queue: seq<string>, i: nat, e: RecoveryEnv)
    requires i < |queue| && PendingQueue(before, queue) && Judged(before, after, queue[..i], e)
    ensures queue[i] in before && queue[i] in after && after[queue[i]] == before[queue[i]] && Pending(before[queue[i]].status)
  {
  }

  method RecoverOne(store: OrderIntentStore, id: string, e: RecoveryEnv) returns (verdict: Verdict)
    requires id in store.rows && Pending(store.rows[id].status)
    modifies store
    ensures verdict == VerdictOn(old(store.rows)[id], e, id)
    ensures store.rows.Keys == old(store.rows).Keys && JudgedRow(old(store.rows)[id], store.rows[id], e, id)
    ensures forall other :: other in old(store.rows) && other != id ==> store.rows[other] == old(store.rows)[other]
  {
    var row := store.rows[id];
    if row.intent.market.exchange !in e.configured || id in e.raises {
      return Unresolved;
    }
    var search := SearchOrderByClientId(ReadsFor(e, id), id);
    if search.order.Some? {
      store.MarkOutcome(id, AsRecovered(search.order.value.id), e.now);
      return Found;
    }
    var age := Max(0.0, e.now - row.createdAt);
    if e.resolveAbsent && age >= Max(0.0, e.minAge) && search.open && (search.closed || search.direct) {
      store.MarkOutcome(id, AsAbsent, e.now);
      return ConfirmedAbsent;
    }
    verdict := Unresolved;
  }

  /** An intent is closed as absent exactly when the open orders and a second source answered and none of
      the answers shows it; an intent that any answer shows is never closed as absent. */
  lemma AbsenceIsEvidenced(r: Row, e: RecoveryEnv, id: string)
    ensures VerdictOn(r, e, id) == ConfirmedAbsent <==>
            var a := ReadsFor(e, id);
            && id != "" && a.supported && id !in e.raises
            && a.open.Listed? && !Shows(a.open, id) && !Shows(a.closed, id) && !DirectHit(a.direct)
            && (a.closed.Listed? || a.direct.DirectAnswered?)
            && Max(0.0, e.now - r.createdAt) >= Max(0.0, e.minAge) && e.resolveAbsent && r.intent.market.exchange in e.configured
    ensures Shows(ReadsFor(e, id).open, id) || Shows(ReadsFor(e, id).closed, id) ==> VerdictOn(r, e, id) != ConfirmedAbsent
    ensures VerdictOn(r, e, id) != Unresolved ==> r.intent.market.exchange in e.configured && id !in e.raises
  {
  }

  // ---- cancellation ----

  /** One attempt: the cancel request may raise; each read may raise or list the open order ids. */
  datatype Attempt = Attempt(cancelRaised: bool, firstRead: Option<set<string>>, secondRead: Option<set<string>>)

  predicate AbsentIn(read: Option<set<string>>, orderId: string) {
    read.Some? && orderId !in read.value
  }

  /** The attempt ended with a successful read, made after its cancel request, that misses the order. */
  predicate Confirms(a: Attempt, orderId: string) {
    (!a.cancelRaised && AbsentIn(a.firstRead, orderId)) || AbsentIn(a.secondRead, orderId)
  }

  /** An attempt whose cancel request raised, or whose first read failed or still showed the order, is confirmed
      by its second read alone; any other attempt is confirmed. */
  lemma ConfirmsExactlyWhen(a: Attempt, orderId: string)
    ensures Confirms(a, orderId) <==>
            if a.cancelRaised || a.firstRead.None? || orderId in a.firstRead.value then a.secondRead.Some? && orderId !in a.secondRead.value
            else true
  {
  }

  /** Cancellation succeeds at the first attempt a read confirms, and only then is the journal told. */
  method CancelOrder(store: OrderIntentStore, market: Market, orderId: string, attempts: seq<Attempt>, now: real) returns (confirmed: bool, requests: nat)
    modifies store
    ensures confirmed <==> exists k :: 0 <= k < |attempts| && Confirms(attempts[k], orderId)
    ensures requests <= |attempts| && forall k :: 0 <= k < requests - 1 ==> !Confirms(attempts[k], orderId)
    ensures if confirmed then requests > 0 && Confirms(attempts[requests - 1], orderId) else requests == |attempts|
    ensures store.rows == if confirmed then MarkCanceled(old(store.rows), market, orderId, now) else old(store.rows)
  {
    confirmed, requests := false, 0;
    while requests < |attempts| && !confirmed
      invariant requests <= |attempts|
      invariant forall k :: 0 <= k < requests - 1 ==> !Confirms(attempts[k], orderId)
      invariant if confirmed then requests > 0 && Confirms(attempts[requests - 1], orderId)
                else forall k :: 0 <= k < requests ==> !Confirms(attempts[k], orderId)
      decreases |attempts| - requests, !confirmed
    {
      var a := attempts[requests];
      requests := requests + 1;
      var raised := a.cancelRaised || a.firstRead.None? || orderId in a.firstRead.value;
      if raised {
        var stillOpen := a.secondRead.None? || orderId in a.secondRead.value;
        confirmed := !stillOpen;
      } else {
        confirmed := true;
      }
    }
    if confirmed {
      store.MarkCanceledByOrderId(market, orderId, now);
    }
  }
}
