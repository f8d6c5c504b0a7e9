/** The tables of the asset ledger and the operations on them: fills recorded once under a content key,
    balance snapshots compared with the fills observed since the previous one. */
module LedgerTables {
  import opened Numbers

  datatype Side = Buy | Sell | OtherSide

  datatype Pair = Pair(base: string, quote: string)

  /** The columns that make up a fill's key; cost and fee are not among them. */
  datatype FillKey = FillKey(
    account: string, id: string, orderId: string, symbol: string, pair: Option<Pair>, side: Side, price: real, amount: real, timestamp: int)

  datatype Fill = Fill(key: FillKey, cost: real, feeCurrency: string, feeCost: real)

  datatype ObservationKey = ObservationKey(fill: FillKey, source: string)

  datatype Owner = Owner(account: string, source: string)

  /** One currency of a balance as the exchange reports it. */
  datatype BalanceRow = BalanceRow(free: Option<real>, used: Option<real>, total: Option<real>)

  /** A stored balance payload: the rows it lists and everything else it contains. */
  datatype Payload = Payload(rows: map<string, BalanceRow>, rest: string) {
    function Totals(): map<string, real> {
      map c | c in rows && rows[c].total.Some? :: rows[c].total.value
    }
  }

  datatype Header = Header(at: real, payload: Payload)

  datatype Ledger = Ledger(fills: seq<Fill>, observed: map<ObservationKey, real>, headers: map<Owner, Header>)

  datatype Config = Config(absTolerance: real, relTolerance: real)

  datatype Diff = Diff(expected: real, observed: real, delta: real)

  // ---- fills ----

  predicate HasKey(fills: seq<Fill>, key: FillKey) {
    exists i :: 0 <= i < |fills| && fills[i].key == key
  }

  /** The first report of a key is kept; the first observation by each source is kept. */
  function AddFill(l: Ledger, t: Fill, source: string, at: real): Ledger {
    var seen := ObservationKey(t.key, source);
    l.(fills := if HasKey(l.fills, t.key) then l.fills else l.fills + [t],
       observed := if seen in l.observed then l.observed else l.observed[seen := at])
  }

  function AddFills(l: Ledger, trades: seq<Fill>, source: string, at: real): Ledger {
    if trades == [] then l else AddFill(AddFills(l, trades[..|trades| - 1], source, at), trades[|trades| - 1], source, at)
  }

  /** What a fill does to the balance of a currency. A symbol without a pair moves nothing. */
  function Effect(f: Fill, c: string): real {
    if f.key.pair.None? then 0.0
    else
      var p := f.key.pair.value;
      var traded := if f.key.side.Buy? then 1.0 else if f.key.side.Sell? then -1.0 else 0.0;
      (if c == p.base then traded * f.key.amount else 0.0)
      - (if c == p.quote then traded * f.cost else 0.0)
      - (if f.feeCurrency != "" && c == f.feeCurrency then f.feeCost else 0.0)
  }

  function Effects(fills: seq<Fill>, c: string): real {
    if fills == [] then 0.0 else Effects(fills[..|fills| - 1], c) + Effect(fills[|fills| - 1], c)
  }

  predicate InWindow(l: Ledger, f: Fill, o: Owner, after: real, until: real) {
    var seen := ObservationKey(f.key, o.source);
    f.key.account == o.account && seen in l.observed && after < l.observed[seen] <= until
  }

  /** The fills of an account that a source first observed in a time window. */
  function NewlyObserved(l: Ledger, fills: seq<Fill>, o: Owner, after: real, until: real): seq<Fill> {
    if fills == [] then []
    else
      var last := fills[|fills| - 1];
      NewlyObserved(l, fills[..|fills| - 1], o, after, until) + (if InWindow(l, last, o, after, until) then [last] else [])
  }

  // ---- balance snapshots ----

  predicate HasBaseline(l: Ledger, source: string, at: real) {
    exists k :: k in l.observed && k.source == source && l.observed[k] <= at
  }

  function Tolerance(cfg: Config, expected: real): real {
    Max(cfg.absTolerance, Product(Abs(expected), cfg.relTolerance))
  }

  /** The comparison of one currency with the previous header plus the fills observed since. */
  function Compare(l: Ledger, o: Owner, previous: Header, p: Payload, at: real, c: string): Diff
    requires c in previous.payload.Totals() && c in p.Totals()
  {
    var expected := previous.payload.Totals()[c] + Effects(NewlyObserved(l, l.fills, o, previous.at, at), c);
    Diff(expected, p.Totals()[c], p.Totals()[c] - expected)
  }

  predicate Unexplained(cfg: Config, d: Diff) {
    Abs(d.delta) > Tolerance(cfg, d.expected)
  }

  /** How far a row's total is from free plus used, when all three are reported. */
  function Discrepancy(r: BalanceRow): Option<real> {
    if r.free.None? || r.used.None? || r.total.None? then None else Some(r.total.value - r.free.value - r.used.value)
  }

  predicate BreaksIdentity(cfg: Config, r: BalanceRow) {
    Discrepancy(r).Some? && Abs(Discrepancy(r).value) > Tolerance(cfg, r.total.value)
  }

  /** A row is reported exactly when its total differs from free plus used by more than the tolerance. */
  lemma IdentityBreaksExactlyWhen(cfg: Config, free: real, used: real, total: real)
    ensures BreaksIdentity(cfg, BalanceRow(Some(free), Some(used), Some(total)))
            <==> Abs(total - (free + used)) > Max(cfg.absTolerance, Product(Abs(total), cfg.relTolerance))
    ensures cfg.absTolerance >= 0.0 && free + used == total ==> !BreaksIdentity(cfg, BalanceRow(Some(free), Some(used), Some(total)))
    ensures forall r: BalanceRow :: r.free.None? || r.used.None? || r.total.None? ==> !BreaksIdentity(cfg, r)
  {
  }

  /** A readable snapshot is skipped when its payload repeats the latest stored one. */
  predicate Repeats(l: Ledger, o: Owner, p: Payload) {
    o in l.headers && l.headers[o].payload == p
  }

  predicate Stores(l: Ledger, o: Owner, ok: bool, p: Payload) {
    ok && !Repeats(l, o, p)
  }

  predicate Reports(l: Ledger, o: Owner, ok: bool, p: Payload, at: real, cfg: Config, c: string) {
    && Stores(l, o, ok, p) && o in l.headers && HasBaseline(l, o.source, l.headers[o].at)
    && c in l.headers[o].payload.Totals() && c in p.Totals()
    && Unexplained(cfg, Compare(l, o, l.headers[o], p, at, c))
  }

  /** Exactly the unexplained currencies are reported, each with its comparison. */
  ghost predicate ReportsExactly(diffs: map<string, Diff>, l: Ledger, o: Owner, ok: bool, p: Payload, at: real, cfg: Config) {
    && (forall c :: c in diffs <==> Reports(l, o, ok, p, at, cfg, c))
    && (forall c :: c in diffs ==> Reports(l, o, ok, p, at, cfg, c) && diffs[c] == Compare(l, o, l.headers[o], p, at, c))
  }

  /** Exactly the rows of a stored payload whose parts do not add up are reported, each with its discrepancy. */
  ghost predicate ReportsIdentity(broken: map<string, real>, l: Ledger, o: Owner, ok: bool, p: Payload, cfg: Config) {
    && (forall c :: c in broken <==> Stores(l, o, ok, p) && c in p.rows && BreaksIdentity(cfg, p.rows[c]))
    && (forall c :: c in broken ==> c in p.rows && Discrepancy(p.rows[c]) == Some(broken[c]))
  }

  function AfterBalance(l: Ledger, o: Owner, ok: bool, p: Payload, at: real): Ledger {
    if Stores(l, o, ok, p) then l.(headers := l.headers[o := Header(at, p)]) else l
  }

  // ---- the ledger ----

  function Amount(deltas: map<string, real>, c: string): real {
    if c in deltas then deltas[c] else 0.0
  }

  function Adjusted(deltas: map<string, real>, c: string, change: real): map<string, real> {
    deltas[c := Amount(deltas, c) + change]
  }

  /** The loop that accumulates what the fills of the window did to each currency. */
  method SumFillDeltas(fills: seq<Fill>) returns (deltas: map<string, real>)
    ensures forall c :: Amount(deltas, c) == Effects(fills, c)
  {
    deltas := map[];
    for i := 0 to |fills|
      invariant forall c :: Amount(deltas, c) == Effects(fills[..i], c)
    {
      assert fills[..i + 1][..i] == fills[..i];
      deltas := AddDelta(deltas, fills[i]);
    }
    assert fills[..|fills|] == fills;
  }

  method AddDelta(deltas: map<string, real>, f: Fill) returns (r: map<string, real>)
    ensures forall c :: Amount(r, c) == Amount(deltas, c) + Effect(f, c)
  {
    r := deltas;
    if f.key.pair.None? {
      return;
    }
    var pair := f.key.pair.value;
    if f.key.side.Buy? {
      r := Adjusted(r, pair.base, f.key.amount);
      r := Adjusted(r, pair.quote, -f.cost);
    } else if f.key.side.Sell? {
      r := Adjusted(r, pair.base, -f.key.amount);
      r := Adjusted(r, pair.quote, f.cost);
    }
    if f.feeCurrency != "" {
      r := Adjusted(r, f.feeCurrency, -f.feeCost);
    }
  }

  class AssetLedger {
    const cfg: Config
    var fills: seq<Fill>
    var observed: map<ObservationKey, real>
    var headers: map<Owner, Header>

    constructor (cfg: Config)
      ensures this.cfg == cfg && View() == Ledger([], map[], map[])
    {
      this.cfg := cfg;
      fills, observed, headers := [], map[], map[];
    }

    ghost function View(): Ledger
      reads this
    {
      Ledger(fills, observed, headers)
    }

    method FindFill(key: FillKey) returns (found: bool)
      ensures found <==> HasKey(fills, key)
    {
      for i := 0 to |fills|
        invariant forall k :: 0 <= k < i ==> fills[k].key != key
      {
        if fills[i].key == key {
          return true;
        }
      }
      found := false;
    }

    /** Record reported trades; the result counts those this source had not observed before. */
    method RecordFills(trades: seq<Fill>, source: string, at: real) returns (newFills: nat)
      modifies this`fills, this`observed
      ensures View() == AddFills(old(View()), trades, source, at)
      ensures newFills == |observed| - |old(observed)|
    {
      newFills := 0;
      ghost var before := View();
      for i := 0 to |trades|
        invariant View() == AddFills(before, trades[..i], source, at)
        invariant newFills == |observed| - |before.observed|
      {
        assert trades[..i + 1][..i] == trades[..i];
        var t := trades[i];
        var found := FindFill(t.key);
        if !found {
          fills := fills + [t];
        }
        var seen := ObservationKey(t.key, source);
        if seen !in observed {
          ghost var was := observed;
          observed := observed[seen := at];
          assert observed.Keys == was.Keys + {seen};
          newFills := newFills + 1;
        }
      }
      assert trades[..|trades|] == trades;
    }

    /** Store a readable, changed balance payload and report the rows that do not add up and the totals
        that the observed fills do not explain. */
    method RecordBalance(o: Owner, ok: bool, p: Payload, at: real) returns (broken: map<string, real>, diffs: map<string, Diff>)
      modifies this`headers
      ensures View() == AfterBalance(old(View()), o, ok, p, at)
      ensures ReportsIdentity(broken, old(View()), o, ok, p, cfg)
      ensures ReportsExactly(diffs, old(View()), o, ok, p, at, cfg)
    {
      broken, diffs := map[], map[];
      if !ok || (o in headers && headers[o].payload == p) {
        return;
      }
      broken := CheckRows(p.rows);
      if o in headers {
        var baseline := FindBaseline(o.source, headers[o].at);
        if baseline {
          diffs := CompareTotals(o, headers[o], p, at);
        }
      }
      headers := headers[o := Header(at, p)];
    }

    method CheckRows(rows: map<string, BalanceRow>) returns (broken: map<string, real>)
      ensures forall c :: c in broken <==> c in rows && BreaksIdentity(cfg, rows[c])
      ensures forall c :: c in broken ==> c in rows && Discrepancy(rows[c]) == Some(broken[c])
    {
      broken := map[];
      var left := rows.Keys;
      while left != {}
        invariant left <= rows.Keys
        invariant forall c :: c in broken <==> c in rows && c !in left && BreaksIdentity(cfg, rows[c])
        invariant forall c :: c in broken ==> c in rows && Discrepancy(rows[c]) == Some(broken[c])
        decreases left
      {
        var c :| c in left;
        left := left - {c};
        var row := rows[c];
        if row.free.Some? && row.used.Some? && row.total.Some? {
          var discrepancy := row.total.value - row.free.value - row.used.value;
          if Abs(discrepancy) > Max(cfg.absTolerance, Product(Abs(row.total.value), cfg.relTolerance)) {
            broken := broken[c := discrepancy];
          }
        }
      }
    }

    method FindBaseline(source: string, at: real) returns (found: bool)
      ensures found <==> HasBaseline(View(), source, at)
    {
      var keys := observed.Keys;
      found := false;
      while keys != {} && !found
        invariant keys <= observed.Keys
        invariant found ==> HasBaseline(View(), source, at)
        invariant !found ==> forall k :: k in observed && k.source == source && observed[k] <= at ==> k in keys
        decreases keys
      {
        var k :| k in keys;
        keys := keys - {k};
        found := k.source == source && observed[k] <= at;
      }
    }

    method CompareTotals(o: Owner, previous: Header, p: Payload, at: real) returns (diffs: map<string, Diff>)
      ensures forall c :: c in diffs <==> c in previous.payload.Totals() && c in p.Totals() && Unexplained(cfg, Compare(View(), o, previous, p, at, c))
      ensures forall c :: c in diffs ==> c in previous.payload.Totals() && c in p.Totals() && diffs[c] == Compare(View(), o, previous, p, at, c)
    {
      var deltas := SumFillDeltas(NewlyObserved(Ledger(fills, observed, headers), fills, o, previous.at, at));
      var currencies := previous.payload.Totals().Keys * p.Totals().Keys;
      diffs := map[];
      var left := currencies;
      while left != {}
        invariant left <= currencies
        invariant forall c :: c in diffs <==> c in currencies - left && Unexplained(cfg, Compare(View(), o, previous, p, at, c))
        invariant forall c :: c in diffs ==> diffs[c] == Compare(View(), o, previous, p, at, c)
        decreases left
      {
        var c :| c in left;
        left := left - {c};
        var expected := previous.payload.Totals()[c] + Amount(deltas, c);
        var d := Diff(expected, p.Totals()[c], p.Totals()[c] - expected);
        assert d == Compare(View(), o, previous, p, at, c);
        if Abs(d.delta) > Max(cfg.absTolerance, Product(Abs(expected), cfg.relTolerance)) {
          diffs := diffs[c := d];
        }
      }
    }

    /** Orders and their recent trades first, then the balance, all at one observation time. */
    method RecordAccountSnapshot(o: Owner, ordersOk: bool, trades: seq<Fill>, balanceOk: bool, p: Payload, at: real)
      returns (broken: map<string, real>, diffs: map<string, Diff>)
      modifies this
      ensures var recorded := if ordersOk then AddFills(old(View()), trades, o.source, at) else old(View());
              && View() == AfterBalance(recorded, o, balanceOk, p, at)
              && ReportsIdentity(broken, recorded, o, balanceOk, p, cfg)
              && ReportsExactly(diffs, recorded, o, balanceOk, p, at, cfg)
    {
      if ordersOk {
        var _ := RecordFills(trades, o.source, at);
      }
      broken, diffs := RecordBalance(o, balanceOk, p, at);
    }
  }
}
