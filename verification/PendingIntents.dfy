/** The journal's query for pending intents: the oldest ones of a market, up to a row limit. */
module PendingIntents {
  import opened OrderJournal
  import opened StableSort

  /** An empty exchange or symbol matches every one. */
  datatype Filter = Filter(exchange: string, symbol: string)

  predicate Matches(r: Row, f: Filter) {
    (f.exchange == "" || r.intent.market.exchange == f.exchange) && (f.symbol == "" || r.intent.market.symbol == f.symbol)
  }

  predicate Eligible(j: Journal, f: Filter, id: string) {
    id in j && Pending(j[id].status) && Matches(j[id], f)
  }

  const ROW_LIMIT: nat := 1000

  function LimitOf(limit: int): (n: nat)
    ensures 1 <= n <= ROW_LIMIT
  {
    if limit < 1 then 1 else if limit > ROW_LIMIT then ROW_LIMIT else limit
  }

  /** Distinct eligible ids in the order of their last update. A row is left out only when the limit is
      reached, and then it is no older than any row listed. */
  ghost predicate OldestPending(j: Journal, f: Filter, queue: seq<string>, limit: nat) {
    && NoDuplicates(queue) && |queue| <= limit
    && (forall i :: 0 <= i < |queue| ==> Eligible(j, f, queue[i]))
    && (forall a, b :: 0 <= a < b < |queue| && queue[a] in j && queue[b] in j ==> j[queue[a]].updatedAt <= j[queue[b]].updatedAt)
    && (forall id :: Eligible(j, f, id) && id !in queue ==> |queue| == limit && NoOlderThan(j, queue, id))
  }

  ghost predicate NoOlderThan(j: Journal, queue: seq<string>, id: string)
    requires id in j
  {
    forall i :: 0 <= i < |queue| && queue[i] in j ==> j[queue[i]].updatedAt <= j[id].updatedAt
  }

  /** The eligible rows, each ranked by its last update. */
  ghost predicate Collected(j: Journal, f: Filter, found: seq<Ranked<string>>, left: set<string>) {
    && NoDuplicates(found)
    && (forall x :: x in found ==> Eligible(j, f, x.item) && x.rank == j[x.item].updatedAt && x.item !in left)
    && (forall id :: Eligible(j, f, id) && id !in left ==> Ranked(j[id].updatedAt, id) in found)
  }

  function ItemsOf(s: seq<Ranked<string>>): (items: seq<string>)
    ensures |items| == |s| && forall i :: 0 <= i < |s| ==> items[i] == s[i].item
  {
    seq(|s|, i requires 0 <= i < |s| => s[i].item)
  }

  lemma CollectOne(j: Journal, f: Filter, found: seq<Ranked<string>>, left: set<string>, id: string)
    requires id in left && id in j && Collected(j, f, found, left)
    ensures Collected(j, f, if Eligible(j, f, id) then found + [Ranked(j[id].updatedAt, id)] else found, left - {id})
  {
  }

  lemma SortedIsCollected(j: Journal, f: Filter, found: seq<Ranked<string>>)
    requires Collected(j, f, found, {})
    ensures Collected(j, f, Sort(found), {}) && StableSort.Sorted(Sort(found))
  {
    SortSortsAndPermutes(found);
    SortKeepsNoDuplicates(found);
    forall x
      ensures x in Sort(found) <==> x in found
    {
      SortMembership(found, x);
    }
  }

  lemma ItemsAreDistinct(j: Journal, f: Filter, sorted: seq<Ranked<string>>)
    requires Collected(j, f, sorted, {})
    ensures NoDuplicates(ItemsOf(sorted))
  {
    forall a, b | 0 <= a < b < |sorted|
      ensures sorted[a].item != sorted[b].item
    {
      assert sorted[a] in sorted && sorted[b] in sorted;
    }
  }

  lemma TakeOldest(j: Journal, f: Filter, sorted: seq<Ranked<string>>, n: nat, limit: nat)
    requires Collected(j, f, sorted, {}) && StableSort.Sorted(sorted) && n == if |sorted| < limit then |sorted| else limit
    ensures OldestPending(j, f, ItemsOf(sorted)[..n], limit)
  {
    var queue := ItemsOf(sorted)[..n];
    ItemsAreDistinct(j, f, sorted);
    assert forall i :: 0 <= i < |sorted| ==> sorted[i] in sorted;
    assert forall i :: 0 <= i < n ==> queue[i] == sorted[i].item && queue[i] in queue;
    forall id | Eligible(j, f, id) && id !in queue
      ensures |queue| == limit && NoOlderThan(j, queue, id)
    {
      var x := Ranked(j[id].updatedAt, id);
      var k :| 0 <= k < |sorted| && sorted[k] == x;
      assert k >= n;
    }
  }

  method PendingForMarket(store: OrderIntentStore, f: Filter, limit: int) returns (queue: seq<string>)
    ensures OldestPending(store.rows, f, queue, LimitOf(limit))
    ensures forall id :: id in queue ==>
              && id in store.rows && (store.rows[id].status == Reserved || store.rows[id].status == Unknown)
              && (f.exchange == "" || store.rows[id].intent.market.exchange == f.exchange)
              && (f.symbol == "" || store.rows[id].intent.market.symbol == f.symbol)
    ensures forall id :: id in store.rows && (store.rows[id].status == Reserved || store.rows[id].status == Unknown)
                         && (f.exchange == "" || store.rows[id].intent.market.exchange == f.exchange)
                         && (f.symbol == "" || store.rows[id].intent.market.symbol == f.symbol) ==>
              id in queue || |queue| == LimitOf(limit)
  {
    var found: seq<Ranked<string>> := [];
    var left := store.rows.Keys;
    while left != {}
      invariant left <= store.rows.Keys
      invariant Collected(store.rows, f, found, left)
      decreases left
    {
      var id :| id in left;
      CollectOne(store.rows, f, found, left, id);
      if Eligible(store.rows, f, id) {
        found := found + [Ranked(store.rows[id].updatedAt, id)];
      }
      left := left - {id};
    }
    SortedIsCollected(store.rows, f, found);
    var sorted := Sort(found);
    var n := if |sorted| < LimitOf(limit) then |sorted| else LimitOf(limit);
    TakeOldest(store.rows, f, sorted, n, LimitOf(limit));
    queue := ItemsOf(sorted)[..n];
  }
}
