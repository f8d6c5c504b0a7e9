/** Why ledger diffs can be trusted: over any run of executions, other balance flows, duplicate trade
    reports, skipped snapshots and failed reads, a comparison measures the flow the fills do not explain. */
module Reconciliation {
  import opened Numbers
  import opened LedgerTables

  // ---- the world the ledger observes ----

  datatype Place = Place(account: string, currency: string)

  /** What the exchange holds for every account, the fills executed so far, the net of all other balance
      changes, and what was true when the latest header of each account and source was stored. */
  datatype System = System(
    balances: map<Place, real>, executed: seq<Fill>, flows: map<Place, real>, clock: real, ledger: Ledger, marks: map<Owner, Mark>)

  datatype Mark = Mark(executed: nat, flows: map<Place, real>)

  /** How an exchange splits a total, which may be unreported or not add up. */
  datatype Parts = Parts(free: Option<real>, used: Option<real>)

  datatype Event =
    | Execute(fill: Fill)
    | Flow(account: string, currency: string, amount: real)
    | Fills(account: string, source: string, trades: seq<Fill>, at: real)
    | Snapshot(owner: Owner, ordersOk: bool, trades: seq<Fill>, balanceOk: bool, listed: map<string, Parts>, rest: string, at: real)

  const START := System(map[], [], map[], 0.0, Ledger([], map[], map[]), map[])

  function At(amounts: map<Place, real>, account: string, c: string): real {
    if Place(account, c) in amounts then amounts[Place(account, c)] else 0.0
  }

  function Moved(amounts: map<Place, real>, account: string, c: string, change: real): map<Place, real> {
    amounts[Place(account, c) := At(amounts, account, c) + change]
  }

  /** The exchange's side of a fill: a buy receives the base and pays the quote, a sale the reverse, and
      the fee is taken in its own currency. */
  function Settled(balances: map<Place, real>, f: Fill): map<Place, real> {
    if f.key.pair.None? then balances
    else
      var exchanged := Exchanged(balances, f, f.key.pair.value);
      if f.feeCurrency == "" then exchanged else Moved(exchanged, f.key.account, f.feeCurrency, -f.feeCost)
  }

  function Exchanged(balances: map<Place, real>, f: Fill, pair: Pair): map<Place, real> {
    var account := f.key.account;
    match f.key.side
    case Buy => Moved(Moved(balances, account, pair.base, f.key.amount), account, pair.quote, -f.cost)
    case Sell => Moved(Moved(balances, account, pair.quote, f.cost), account, pair.base, -f.key.amount)
    case OtherSide => balances
  }

  function ExecutedBy(fills: seq<Fill>, account: string): seq<Fill> {
    if fills == [] then []
    else
      var last := fills[|fills| - 1];
      ExecutedBy(fills[..|fills| - 1], account) + (if last.key.account == account then [last] else [])
  }

  /** The ledger's account of a balance: what fills and everything else did to it. */
  function Balance(executed: seq<Fill>, flows: map<Place, real>, account: string, c: string): real {
    At(flows, account, c) + Effects(ExecutedBy(executed, account), c)
  }

  function RowOf(parts: Parts, total: real): BalanceRow {
    BalanceRow(parts.free, parts.used, Some(total))
  }

  /** A snapshot lists the totals the exchange holds, in whatever parts the exchange splits them. */
  function PayloadOf(s: System, ev: Event): Payload
    requires ev.Snapshot?
  {
    Payload(map c | c in ev.listed :: RowOf(ev.listed[c], At(s.balances, ev.owner.account, c)), ev.rest)
  }

  /** The ledger after the orders half of a snapshot, which the balance half then compares against. */
  function Recorded(s: System, ev: Event): Ledger
    requires ev.Snapshot?
  {
    if ev.ordersOk then AddFills(s.ledger, ev.trades, ev.owner.source, ev.at) else s.ledger
  }

  function Step(s: System, ev: Event): System {
    match ev
    case Execute(f) => s.(executed := s.executed + [f], balances := Settled(s.balances, f))
    case Flow(account, c, amount) => s.(flows := Moved(s.flows, account, c, amount), balances := Moved(s.balances, account, c, amount))
    case Fills(_, source, trades, at) => s.(clock := at, ledger := AddFills(s.ledger, trades, source, at))
    case Snapshot(o, _, _, ok, _, _, at) =>
      var recorded := Recorded(s, ev);
      System(s.balances, s.executed, s.flows, at, AfterBalance(recorded, o, ok, PayloadOf(s, ev), at),
             if Stores(recorded, o, ok, PayloadOf(s, ev)) then s.marks[o := Mark(|s.executed|, s.flows)] else s.marks)
  }

  function TradesOf(ev: Event): seq<Fill> {
    if ev.Fills? || ev.Snapshot? then ev.trades else []
  }

  /** Executed fills have distinct keys, reports repeat executed fills, and time moves on. */
  ghost predicate Honest(s: System, ev: Event) {
    && (ev.Execute? ==> !HasKey(s.executed, ev.fill.key))
    && (forall t :: t in TradesOf(ev) ==> t in s.executed)
    && (ev.Fills? || ev.Snapshot? ==> ev.at > s.clock)
  }

  function Run(events: seq<Event>): System {
    if events == [] then START else Step(Run(events[..|events| - 1]), events[|events| - 1])
  }

  ghost predicate HonestRun(events: seq<Event>) {
    forall k :: 0 <= k < |events| ==> Honest(Run(events[..k]), events[k])
  }

  // ---- what every run keeps ----

  ghost predicate DistinctKeys(fills: seq<Fill>) {
    forall i, j :: 0 <= i < j < |fills| ==> fills[i].key != fills[j].key
  }

  ghost predicate TablesOk(executed: seq<Fill>, clock: real, l: Ledger) {
    && DistinctKeys(executed) && DistinctKeys(l.fills)
    && (forall f :: f in l.fills ==> f in executed)
    && (forall k :: k in l.observed ==> HasKey(l.fills, k.fill) && l.observed[k] <= clock)
  }

  /** A stored header lists true balances, and whatever its source had observed by then was executed by then. */
  ghost predicate HeaderOk(s: System, o: Owner) {
    && o in s.marks && o in s.ledger.headers && s.ledger.headers[o].at <= s.clock && s.marks[o].executed <= |s.executed|
    && (forall c :: c in s.ledger.headers[o].payload.Totals() ==>
          s.ledger.headers[o].payload.Totals()[c] == Balance(s.executed[..s.marks[o].executed], s.marks[o].flows, o.account, c))
    && (forall k :: k in s.ledger.observed && k.source == o.source && s.ledger.observed[k] <= s.ledger.headers[o].at ==>
          HasKey(s.executed[..s.marks[o].executed], k.fill))
  }

  /** What the exchange holds is what the fills and the other flows add up to. */
  ghost predicate BalancesAddUp(s: System) {
    forall account, c :: At(s.balances, account, c) == Balance(s.executed, s.flows, account, c)
  }

  ghost predicate Invariant(s: System) {
    TablesOk(s.executed, s.clock, s.ledger) && BalancesAddUp(s) && forall o :: o in s.ledger.headers ==> HeaderOk(s, o)
  }

  lemma MovedAt(amounts: map<Place, real>, account: string, c: string, change: real, a: string, b: string)
    ensures At(Moved(amounts, account, c, change), a, b) == At(amounts, a, b) + (if a == account && b == c then change else 0.0)
  {
  }

  lemma ExchangedAt(balances: map<Place, real>, f: Fill, pair: Pair, account: string, c: string)
    ensures At(Exchanged(balances, f, pair), account, c) == At(balances, account, c)
         + (if account == f.key.account && c == pair.base && f.key.side.Buy? then f.key.amount else 0.0)
         - (if account == f.key.account && c == pair.base && f.key.side.Sell? then f.key.amount else 0.0)
         - (if account == f.key.account && c == pair.quote && f.key.side.Buy? then f.cost else 0.0)
         + (if account == f.key.account && c == pair.quote && f.key.side.Sell? then f.cost else 0.0)
  {
    match f.key.side
    case Buy =>
      MovedAt(balances, f.key.account, pair.base, f.key.amount, account, c);
      MovedAt(Moved(balances, f.key.account, pair.base, f.key.amount), f.key.account, pair.quote, -f.cost, account, c);
    case Sell =>
      MovedAt(balances, f.key.account, pair.quote, f.cost, account, c);
      MovedAt(Moved(balances, f.key.account, pair.quote, f.cost), f.key.account, pair.base, -f.key.amount, account, c);
    case OtherSide =>
  }

  /** The effect the ledger expects of a fill is what settling it does to the balances. */
  lemma SettlingHasEffect(balances: map<Place, real>, f: Fill, account: string, c: string)
    ensures At(Settled(balances, f), account, c) == At(balances, account, c) + (if f.key.account == account then Effect(f, c) else 0.0)
  {
    if f.key.pair.Some? {
      ExchangedAt(balances, f, f.key.pair.value, account, c);
      MovedAt(Exchanged(balances, f, f.key.pair.value), f.key.account, f.feeCurrency, -f.feeCost, account, c);
    }
  }

  lemma OneMoreFill(executed: seq<Fill>, f: Fill, flows: map<Place, real>, account: string, c: string)
    ensures Balance(executed + [f], flows, account, c)
         == Balance(executed, flows, account, c) + (if f.key.account == account then Effect(f, c) else 0.0)
  {
    assert (executed + [f])[..|executed|] == executed;
    var mine := ExecutedBy(executed, account);
    if f.key.account == account {
      assert (mine + [f])[..|mine|] == mine;
    } else {
      assert mine + [] == mine;
    }
  }

  lemma ExecuteAddsUp(s: System, f: Fill)
    requires BalancesAddUp(s)
    ensures BalancesAddUp(Step(s, Execute(f)))
  {
    var next := Step(s, Execute(f));
    forall account, c
      ensures At(next.balances, account, c) == Balance(next.executed, next.flows, account, c)
    {
      SettlingHasEffect(s.balances, f, account, c);
      OneMoreFill(s.executed, f, s.flows, account, c);
    }
  }

  lemma FlowAddsUp(s: System, account: string, c: string, amount: real)
    requires BalancesAddUp(s)
    ensures BalancesAddUp(Step(s, Flow(account, c, amount)))
  {
    var next := Step(s, Flow(account, c, amount));
    forall a, b
      ensures At(next.balances, a, b) == Balance(next.executed, next.flows, a, b)
    {
      MovedAt(s.balances, account, c, amount, a, b);
      MovedAt(s.flows, account, c, amount, a, b);
    }
  }

  lemma KeyOf(fills: seq<Fill>, f: Fill)
    requires f in fills
    ensures HasKey(fills, f.key)
  {
  }

  lemma AddFillKeepsTables(executed: seq<Fill>, clock: real, l: Ledger, t: Fill, source: string, at: real)
    requires TablesOk(executed, at, l) && t in executed
    ensures TablesOk(executed, at, AddFill(l, t, source, at))
  {
    var next := AddFill(l, t, source, at);
    forall k | k in next.observed
      ensures HasKey(next.fills, k.fill) && next.observed[k] <= at
    {
      if k in l.observed {
        var i :| 0 <= i < |l.fills| && l.fills[i].key == k.fill;
        assert next.fills[i].key == k.fill;
      } else if !HasKey(l.fills, t.key) {
        assert next.fills[|l.fills|].key == k.fill;
      }
    }
  }

  lemma {:induction false} AddFillsKeepsTables(executed: seq<Fill>, clock: real, l: Ledger, trades: seq<Fill>, source: string, at: real)
    requires TablesOk(executed, clock, l) && clock <= at && forall t :: t in trades ==> t in executed
    ensures TablesOk(executed, at, AddFills(l, trades, source, at))
  {
    if trades != [] {
      var n := |trades| - 1;
      AddFillsKeepsTables(executed, clock, l, trades[..n], source, at);
      assert trades[n] in trades;
      AddFillKeepsTables(executed, clock, AddFills(l, trades[..n], source, at), trades[n], source, at);
    }
  }

  /** Recording never changes or removes a fill or an observation: it only adds, at the current time. */
  ghost predicate Extends(l: Ledger, next: Ledger, at: real) {
    && l.fills <= next.fills && next.headers == l.headers
    && (forall k :: k in l.observed ==> k in next.observed && next.observed[k] == l.observed[k])
    && (forall k :: k in next.observed && k !in l.observed ==> next.observed[k] == at)
  }

  lemma {:induction false} AddFillsExtends(l: Ledger, trades: seq<Fill>, source: string, at: real)
    ensures Extends(l, AddFills(l, trades, source, at), at)
  {
    if trades != [] {
      AddFillsExtends(l, trades[..|trades| - 1], source, at);
    }
  }

  /** Reporting the same trades again, at any later time, records nothing. */
  lemma {:induction false} ReportingAgainChangesNothing(l: Ledger, trades: seq<Fill>, source: string, again: real)
    requires forall t :: t in trades ==> HasKey(l.fills, t.key) && ObservationKey(t.key, source) in l.observed
    ensures AddFills(l, trades, source, again) == l
  {
    if trades != [] {
      assert trades[|trades| - 1] in trades;
      ReportingAgainChangesNothing(l, trades[..|trades| - 1], source, again);
    }
  }

  lemma {:induction false} ReportedIsRecorded(l: Ledger, trades: seq<Fill>, source: string, at: real, t: Fill)
    requires t in trades
    ensures HasKey(AddFills(l, trades, source, at).fills, t.key) && ObservationKey(t.key, source) in AddFills(l, trades, source, at).observed
  {
    var n := |trades| - 1;
    var before, last := AddFills(l, trades[..n], source, at), trades[n];
    var next := AddFill(before, last, source, at);
    if t == last {
      if !HasKey(before.fills, t.key) {
        assert next.fills[|before.fills|].key == t.key;
      }
    } else {
      ReportedIsRecorded(l, trades[..n], source, at, t);
      var i :| 0 <= i < |before.fills| && before.fills[i].key == t.key;
      assert next.fills[i].key == t.key;
    }
  }

  /** Duplicate reports: recording a list twice is recording it once. */
  lemma RecordingTwiceIsOnce(l: Ledger, trades: seq<Fill>, source: string, at: real, again: real)
    ensures AddFills(AddFills(l, trades, source, at), trades, source, again) == AddFills(l, trades, source, at)
  {
    forall t | t in trades
      ensures HasKey(AddFills(l, trades, source, at).fills, t.key) && ObservationKey(t.key, source) in AddFills(l, trades, source, at).observed
    {
      ReportedIsRecorded(l, trades, source, at, t);
    }
    ReportingAgainChangesNothing(AddFills(l, trades, source, at), trades, source, again);
  }

  lemma KeepsHeader(s: System, next: System, o: Owner)
    requires HeaderOk(s, o) && o in s.ledger.headers
    requires s.executed <= next.executed && s.clock <= next.clock
    requires o in next.ledger.headers && next.ledger.headers[o] == s.ledger.headers[o] && o in next.marks && next.marks[o] == s.marks[o]
    requires forall k :: k in next.ledger.observed ==>
               (k in s.ledger.observed && next.ledger.observed[k] == s.ledger.observed[k]) || next.ledger.observed[k] > s.clock
    ensures HeaderOk(next, o)
  {
    var n := s.marks[o].executed;
    assert next.executed[..n] == s.executed[..n];
  }

  lemma NewHeaderOk(s: System, recorded: Ledger, ev: Event)
    requires ev.Snapshot? && Stores(recorded, ev.owner, ev.balanceOk, PayloadOf(s, ev))
    requires recorded == Recorded(s, ev) && TablesOk(s.executed, ev.at, recorded) && BalancesAddUp(s)
    ensures HeaderOk(Step(s, ev), ev.owner)
  {
    var next := Step(s, ev);
    assert next.executed[..|s.executed|] == s.executed;
    forall k | k in next.ledger.observed
      ensures HasKey(s.executed, k.fill)
    {
      var i :| 0 <= i < |recorded.fills| && recorded.fills[i].key == k.fill;
      assert recorded.fills[i] in s.executed;
      KeyOf(s.executed, recorded.fills[i]);
    }
  }

  lemma ExecuteKeeps(s: System, f: Fill)
    requires Invariant(s) && Honest(s, Execute(f))
    ensures Invariant(Step(s, Execute(f)))
  {
    var next := Step(s, Execute(f));
    ExecuteAddsUp(s, f);
    forall o | o in s.ledger.headers
      ensures HeaderOk(next, o)
    {
      KeepsHeader(s, next, o);
    }
  }

  lemma FillsKeep(s: System, ev: Event)
    requires ev.Fills? && Invariant(s) && Honest(s, ev)
    ensures Invariant(Step(s, ev))
  {
    var next := Step(s, ev);
    AddFillsKeepsTables(s.executed, s.clock, s.ledger, ev.trades, ev.source, ev.at);
    AddFillsExtends(s.ledger, ev.trades, ev.source, ev.at);
    forall o | o in next.ledger.headers
      ensures HeaderOk(next, o)
    {
      KeepsHeader(s, next, o);
    }
  }

  lemma RecordedIsOk(s: System, ev: Event)
    requires ev.Snapshot? && Invariant(s) && Honest(s, ev)
    ensures TablesOk(s.executed, ev.at, Recorded(s, ev)) && Extends(s.ledger, Recorded(s, ev), ev.at)
  {
    if ev.ordersOk {
      AddFillsKeepsTables(s.executed, s.clock, s.ledger, ev.trades, ev.owner.source, ev.at);
      AddFillsExtends(s.ledger, ev.trades, ev.owner.source, ev.at);
    }
  }

  lemma SnapshotKeeps(s: System, ev: Event)
    requires ev.Snapshot? && Invariant(s) && Honest(s, ev)
    ensures Invariant(Step(s, ev))
  {
    var next := Step(s, ev);
    RecordedIsOk(s, ev);
    forall o | o in next.ledger.headers
      ensures HeaderOk(next, o)
    {
      if o == ev.owner && Stores(Recorded(s, ev), o, ev.balanceOk, PayloadOf(s, ev)) {
        NewHeaderOk(s, Recorded(s, ev), ev);
      } else {
        KeepsHeader(s, next, o);
      }
    }
  }

  lemma StepKeepsInvariant(s: System, ev: Event)
    requires Invariant(s) && Honest(s, ev)
    ensures Invariant(Step(s, ev))
  {
    match ev
    case Execute(f) => ExecuteKeeps(s, f);
    case Flow(account, c, amount) =>
      FlowAddsUp(s, account, c, amount);
      forall o | o in s.ledger.headers
        ensures HeaderOk(Step(s, ev), o)
      {
        KeepsHeader(s, Step(s, ev), o);
      }
    case Fills(_, _, _, _) => FillsKeep(s, ev);
    case Snapshot(_, _, _, _, _, _, _) => SnapshotKeeps(s, ev);
  }

  lemma {:induction false} RunKeepsInvariant(events: seq<Event>)
    requires HonestRun(events)
    ensures Invariant(Run(events))
  {
    if events != [] {
      var n := |events| - 1;
      assert forall k :: 0 <= k <= n ==> events[..n][..k] == events[..k];
      RunKeepsInvariant(events[..n]);
      StepKeepsInvariant(Run(events[..n]), events[n]);
    }
  }

  // ---- sums of effects ----

  lemma {:induction false} EffectsConcat(a: seq<Fill>, b: seq<Fill>, c: string)
    ensures Effects(a + b, c) == Effects(a, c) + Effects(b, c)
  {
    if b == [] {
      assert a + b == a;
    } else {
      EffectsConcat(a, b[..|b| - 1], c);
      assert (a + b)[..|a + b| - 1] == a + b[..|b| - 1];
    }
  }

  lemma EffectsWithout(ys: seq<Fill>, k: nat, c: string)
    requires k < |ys|
    ensures Effects(ys, c) == Effects(ys[..k] + ys[k + 1..], c) + Effect(ys[k], c)
  {
    assert ys == ys[..k] + ([ys[k]] + ys[k + 1..]);
    EffectsConcat(ys[..k], [ys[k]] + ys[k + 1..], c);
    EffectsConcat([ys[k]], ys[k + 1..], c);
    EffectsConcat(ys[..k], ys[k + 1..], c);
    assert [ys[k]][..0] == [];
  }

  ghost predicate SameFills(xs: seq<Fill>, ys: seq<Fill>) {
    forall f :: f in xs <==> f in ys
  }

  lemma SameWithoutLast(xs: seq<Fill>, ys: seq<Fill>, k: nat)
    requires xs != [] && k < |ys| && ys[k] == xs[|xs| - 1] && DistinctKeys(xs) && DistinctKeys(ys) && SameFills(xs, ys)
    ensures SameFills(xs[..|xs| - 1], ys[..k] + ys[k + 1..]) && DistinctKeys(ys[..k] + ys[k + 1..])
  {
    var x, shorter, rest := xs[|xs| - 1], xs[..|xs| - 1], ys[..k] + ys[k + 1..];
    assert xs == shorter + [x] && ys == ys[..k] + [x] + ys[k + 1..];
    forall f
      ensures f in shorter <==> f in rest
    {
      assert f in shorter ==> f != x;
      assert f in rest ==> f != x;
      assert f in xs <==> f in ys;
    }
  }

  lemma HasMemberUnlessEmpty(fills: seq<Fill>)
    ensures fills == [] || exists f :: f in fills
  {
    if fills != [] {
      assert fills[0] in fills;
    }
  }

  /** Duplicate-free lists of the same fills have the same effect. */
  lemma {:induction false} SameFillsSameEffect(xs: seq<Fill>, ys: seq<Fill>, c: string)
    requires DistinctKeys(xs) && DistinctKeys(ys) && SameFills(xs, ys)
    ensures Effects(xs, c) == Effects(ys, c)
  {
    if xs == [] {
      HasMemberUnlessEmpty(ys);
    } else {
      var x := xs[|xs| - 1];
      assert x in xs;
      var k :| 0 <= k < |ys| && ys[k] == x;
      SameWithoutLast(xs, ys, k);
      SameFillsSameEffect(xs[..|xs| - 1], ys[..k] + ys[k + 1..], c);
      EffectsWithout(ys, k, c);
    }
  }

  lemma {:induction false} ExecutedByIs(fills: seq<Fill>, account: string)
    ensures forall f :: f in ExecutedBy(fills, account) <==> f in fills && f.key.account == account
    ensures DistinctKeys(fills) ==> DistinctKeys(ExecutedBy(fills, account))
  {
    if fills != [] {
      var n := |fills| - 1;
      assert fills == fills[..n] + [fills[n]];
      ExecutedByIs(fills[..n], account);
      if DistinctKeys(fills) {
        assert forall f :: f in fills[..n] ==> f.key != fills[n].key;
      }
    }
  }

  lemma {:induction false} ExecutedByConcat(a: seq<Fill>, b: seq<Fill>, account: string)
    ensures ExecutedBy(a + b, account) == ExecutedBy(a, account) + ExecutedBy(b, account)
  {
    if b == [] {
      assert a + b == a;
    } else {
      ExecutedByConcat(a, b[..|b| - 1], account);
      assert (a + b)[..|a + b| - 1] == a + b[..|b| - 1];
    }
  }

  lemma {:induction false} NewlyObservedIs(l: Ledger, fills: seq<Fill>, o: Owner, after: real, until: real)
    ensures forall f :: f in NewlyObserved(l, fills, o, after, until) <==> f in fills && InWindow(l, f, o, after, until)
    ensures DistinctKeys(fills) ==> DistinctKeys(NewlyObserved(l, fills, o, after, until))
  {
    if fills != [] {
      var n := |fills| - 1;
      assert fills == fills[..n] + [fills[n]];
      NewlyObservedIs(l, fills[..n], o, after, until);
      if DistinctKeys(fills) {
        assert forall f :: f in fills[..n] ==> f.key != fills[n].key;
      }
    }
  }

  // ---- telescoping ----

  /** The fills the account executed since its latest header was stored. */
  function Since(s: System, o: Owner): seq<Fill>
    requires o in s.marks && s.marks[o].executed <= |s.executed|
  {
    ExecutedBy(s.executed[s.marks[o].executed..], o.account)
  }

  /** What changed the balance since the latest header and was not a fill. */
  function NonFillFlow(s: System, o: Owner, c: string): real
    requires o in s.marks
  {
    At(s.flows, o.account, c) - At(s.marks[o].flows, o.account, c)
  }

  /** The snapshot is compared with a header: it is readable, changed, and both list the currency. */
  ghost predicate Compares(s: System, ev: Event, c: string) {
    && ev.Snapshot? && ev.owner in s.ledger.headers && ev.owner in s.marks && c in ev.listed
    && c in s.ledger.headers[ev.owner].payload.Totals()
  }

  function DeltaOf(s: System, ev: Event, c: string): Diff
    requires Compares(s, ev, c)
  {
    Compare(Recorded(s, ev), ev.owner, s.ledger.headers[ev.owner], PayloadOf(s, ev), ev.at, c)
  }

  /** Without any assumption of completeness: a comparison measures the net flow that is not a fill,
      plus the fills executed since the header, minus the fills newly observed since. */
  lemma DeltaIsFlowPlusUnobservedFills(s: System, ev: Event, c: string)
    requires Invariant(s) && Compares(s, ev, c)
    ensures var h := s.ledger.headers[ev.owner];
            var window := NewlyObserved(Recorded(s, ev), Recorded(s, ev).fills, ev.owner, h.at, ev.at);
            DeltaOf(s, ev, c).delta == NonFillFlow(s, ev.owner, c) + Effects(Since(s, ev.owner), c) - Effects(window, c)
  {
    var o := ev.owner;
    var n := s.marks[o].executed;
    assert HeaderOk(s, o);
    assert s.executed == s.executed[..n] + s.executed[n..];
    ExecutedByConcat(s.executed[..n], s.executed[n..], o.account);
    EffectsConcat(ExecutedBy(s.executed[..n], o.account), ExecutedBy(s.executed[n..], o.account), c);
  }

  /** Every fill of the account executed among `fills` was observed by the source no later than `by`. */
  ghost predicate AllObserved(l: Ledger, fills: seq<Fill>, o: Owner, latest: real) {
    forall f :: f in fills && f.key.account == o.account ==>
      ObservationKey(f.key, o.source) in l.observed && l.observed[ObservationKey(f.key, o.source)] <= latest
  }

  /** All fills executed by the previous header had been observed by then, and all executed by now have
      been observed by now. */
  ghost predicate Complete(s: System, ev: Event) {
    && ev.Snapshot? && ev.owner in s.ledger.headers && ev.owner in s.marks && s.marks[ev.owner].executed <= |s.executed|
    && AllObserved(s.ledger, s.executed[..s.marks[ev.owner].executed], ev.owner, s.ledger.headers[ev.owner].at)
    && AllObserved(Recorded(s, ev), s.executed, ev.owner, ev.at)
  }

  lemma SameKeySameFill(fills: seq<Fill>, f: Fill, g: Fill)
    requires DistinctKeys(fills) && f in fills && g in fills && f.key == g.key
    ensures f == g
  {
  }

  lemma ObservedInWindowIsSince(s: System, ev: Event, f: Fill)
    requires Invariant(s) && Honest(s, ev) && Complete(s, ev)
    requires f in Recorded(s, ev).fills && InWindow(Recorded(s, ev), f, ev.owner, s.ledger.headers[ev.owner].at, ev.at)
    ensures f in Since(s, ev.owner)
  {
    var n := s.marks[ev.owner].executed;
    RecordedIsOk(s, ev);
    ExecutedByIs(s.executed[n..], ev.owner.account);
    assert s.executed == s.executed[..n] + s.executed[n..];
    assert f !in s.executed[..n];
  }

  lemma SinceIsObservedInWindow(s: System, ev: Event, f: Fill)
    requires Invariant(s) && Honest(s, ev) && Complete(s, ev) && f in Since(s, ev.owner)
    ensures f in Recorded(s, ev).fills && InWindow(Recorded(s, ev), f, ev.owner, s.ledger.headers[ev.owner].at, ev.at)
  {
    var o, l := ev.owner, Recorded(s, ev);
    var n := s.marks[o].executed;
    RecordedIsOk(s, ev);
    ExecutedByIs(s.executed[n..], o.account);
    assert f in s.executed;
    var k := ObservationKey(f.key, o.source);
    assert k in l.observed;
    var i :| 0 <= i < |l.fills| && l.fills[i].key == f.key;
    assert l.fills[i] in l.fills;
    SameKeySameFill(s.executed, l.fills[i], f);
    LaterIsObservedLater(s, ev, f);
  }

  lemma LaterIsObservedLater(s: System, ev: Event, f: Fill)
    requires Invariant(s) && Honest(s, ev) && Complete(s, ev) && f in s.executed[s.marks[ev.owner].executed..]
    requires ObservationKey(f.key, ev.owner.source) in Recorded(s, ev).observed
    ensures Recorded(s, ev).observed[ObservationKey(f.key, ev.owner.source)] > s.ledger.headers[ev.owner].at
  {
    var o, n, k := ev.owner, s.marks[ev.owner].executed, ObservationKey(f.key, ev.owner.source);
    assert HeaderOk(s, o);
    RecordedIsOk(s, ev);
    LaterKeyIsNew(s.executed, n, f);
  }

  lemma LaterKeyIsNew(fills: seq<Fill>, n: nat, f: Fill)
    requires n <= |fills| && DistinctKeys(fills) && f in fills[n..]
    ensures !HasKey(fills[..n], f.key)
  {
  }

  /** Under completeness the fills in the window are exactly the fills executed since the header. */
  lemma WindowIsSince(s: System, ev: Event, c: string)
    requires Invariant(s) && Honest(s, ev) && Complete(s, ev)
    ensures var l, h := Recorded(s, ev), s.ledger.headers[ev.owner];
            Effects(NewlyObserved(l, l.fills, ev.owner, h.at, ev.at), c) == Effects(Since(s, ev.owner), c)
  {
    var l, h, n := Recorded(s, ev), s.ledger.headers[ev.owner], s.marks[ev.owner].executed;
    var window := NewlyObserved(l, l.fills, ev.owner, h.at, ev.at);
    RecordedIsOk(s, ev);
    NewlyObservedIs(l, l.fills, ev.owner, h.at, ev.at);
    ExecutedByIs(s.executed[n..], ev.owner.account);
    forall f
      ensures f in window <==> f in Since(s, ev.owner)
    {
      if f in window {
        ObservedInWindowIsSince(s, ev, f);
      }
      if f in Since(s, ev.owner) {
        SinceIsObservedInWindow(s, ev, f);
      }
    }
    SameFillsSameEffect(window, Since(s, ev.owner), c);
  }

  /** The stored snapshot reports a currency. */
  ghost predicate ReportsDiff(s: System, ev: Event, cfg: Config, c: string) {
    ev.Snapshot? && Reports(Recorded(s, ev), ev.owner, ev.balanceOk, PayloadOf(s, ev), ev.at, cfg, c)
  }

  /** The snapshot is compared at all: it is readable, differs from the stored payload, and its source had
      observed some fill by the time of that payload. */
  ghost predicate IsCompared(s: System, ev: Event) {
    && ev.Snapshot? && ev.owner in s.ledger.headers && ev.balanceOk && PayloadOf(s, ev) != s.ledger.headers[ev.owner].payload
    && exists k :: k in Recorded(s, ev).observed && k.source == ev.owner.source
                   && Recorded(s, ev).observed[k] <= s.ledger.headers[ev.owner].at
  }

  lemma ReportedExactlyWhen(s: System, ev: Event, cfg: Config, c: string)
    requires Compares(s, ev, c)
    ensures var d := DeltaOf(s, ev, c);
            ReportsDiff(s, ev, cfg, c) <==> IsCompared(s, ev) && Abs(d.delta) > Max(cfg.absTolerance, Product(Abs(d.expected), cfg.relTolerance))
  {
    AddFillsExtends(s.ledger, ev.trades, ev.owner.source, ev.at);
  }

  lemma TimelyDelta(s: System, ev: Event, c: string)
    requires Invariant(s) && Honest(s, ev) && Compares(s, ev, c) && Complete(s, ev)
    ensures DeltaOf(s, ev, c).delta == NonFillFlow(s, ev.owner, c)
    ensures DeltaOf(s, ev, c).expected == At(s.balances, ev.owner.account, c) - NonFillFlow(s, ev.owner, c)
  {
    DeltaIsFlowPlusUnobservedFills(s, ev, c);
    WindowIsSince(s, ev, c);
  }

  /** Telescoping, after any honest run whatever snapshots were skipped or failed in between: when the
      fills were observed in time, the delta between the balances the exchange held is exactly the net
      flow since the last stored header that was not a fill, and it is reported if and only if the snapshot
      is compared and the flow exceeds the tolerance. */
  lemma DeltaIsNonFillFlow(events: seq<Event>, ev: Event, cfg: Config, c: string)
    requires HonestRun(events) && Honest(Run(events), ev) && Compares(Run(events), ev, c) && Complete(Run(events), ev)
    ensures var s, flow := Run(events), NonFillFlow(Run(events), ev.owner, c);
            && DeltaOf(s, ev, c).delta == flow
            && DeltaOf(s, ev, c).expected == At(s.balances, ev.owner.account, c) - flow
            && (ReportsDiff(s, ev, cfg, c) <==>
                IsCompared(s, ev)
                && Abs(flow) > Max(cfg.absTolerance, Product(Abs(At(s.balances, ev.owner.account, c) - flow), cfg.relTolerance)))
  {
    RunKeepsInvariant(events);
    TimelyDelta(Run(events), ev, c);
    ReportedExactlyWhen(Run(events), ev, cfg, c);
  }

  lemma {:induction false} WithoutFlowsNothingFlowed(events: seq<Event>, o: Owner)
    requires forall ev :: ev in events ==> !ev.Flow?
    ensures Run(events).flows == map[] && (o in Run(events).marks ==> Run(events).marks[o].flows == map[])
  {
    if events != [] {
      assert events[|events| - 1] in events;
      WithoutFlowsNothingFlowed(events[..|events| - 1], o);
    }
  }

  lemma NothingFlowed(s: System, o: Owner, c: string)
    requires o in s.marks && s.flows == map[] && s.marks[o].flows == map[]
    ensures NonFillFlow(s, o, c) == 0.0
  {
  }

  lemma NoDeltaIsUnreported(s: System, ev: Event, cfg: Config, c: string)
    requires Compares(s, ev, c) && DeltaOf(s, ev, c).delta == 0.0 && cfg.absTolerance >= 0.0
    ensures !ReportsDiff(s, ev, cfg, c)
  {
    ReportedExactlyWhen(s, ev, cfg, c);
  }

  /** When fills are all that moves the balances the exchange holds, and each is observed in time, no
      snapshot of any run reports anything. */
  lemma FillsAloneReportNothing(events: seq<Event>, ev: Event, cfg: Config, c: string)
    requires HonestRun(events) && Honest(Run(events), ev) && Compares(Run(events), ev, c) && Complete(Run(events), ev)
    requires cfg.absTolerance >= 0.0 && forall e :: e in events ==> !e.Flow?
    ensures DeltaOf(Run(events), ev, c).delta == 0.0 && !ReportsDiff(Run(events), ev, cfg, c)
  {
    WithoutFlowsNothingFlowed(events, ev.owner);
    NothingFlowed(Run(events), ev.owner, c);
    RunKeepsInvariant(events);
    TimelyDelta(Run(events), ev, c);
    NoDeltaIsUnreported(Run(events), ev, cfg, c);
  }

  /** A skipped or failed snapshot leaves header and mark alone, so the next comparison still covers it. */
  lemma SkippedSnapshotKeepsHeader(s: System, ev: Event)
    requires ev.Snapshot? && !Stores(Recorded(s, ev), ev.owner, ev.balanceOk, PayloadOf(s, ev))
    ensures Step(s, ev).ledger.headers == s.ledger.headers && Step(s, ev).marks == s.marks
  {
    AddFillsExtends(s.ledger, ev.trades, ev.owner.source, ev.at);
  }
}
