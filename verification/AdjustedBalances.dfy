/** The two halves of an account check together: balances adjusted for their open orders always add up in the
    asset ledger. */
module AdjustedBalances {
  import opened Numbers
  import Reserves
  import LedgerTables

  /** A balance row of the account check as the ledger stores it. */
  function Stored(r: Reserves.Row): LedgerTables.BalanceRow {
    LedgerTables.BalanceRow(r.free, r.used, r.total)
  }

  /** No currency with a reserve is ever reported for not adding up, whatever the exchange said about it. */
  lemma AdjustedRowsNeverBreakIdentity(
      cfg: LedgerTables.Config, before: map<string, Reserves.Row>, after: map<string, Reserves.Row>, orders: seq<Reserves.OpenOrder>, c: string)
    requires cfg.absTolerance >= 0.0 && Reserves.AdjustedBy(before, after, orders) && Reserves.Reserved(orders, c) > 0.0
    ensures c in after && !LedgerTables.BreaksIdentity(cfg, Stored(after[c]))
  {
    Reserves.EveryReserveIsCovered(before, after, orders, c);
    LedgerTables.IdentityBreaksExactlyWhen(cfg, after[c].free.value, after[c].used.value, after[c].total.value);
  }
}
