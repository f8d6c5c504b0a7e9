/** Cancelling the selected orders, confirming on the exchange, and placing the replacements. */
module OrderPlacement {
  import opened Numbers
  import opened LadderMatching

  /** The exchange's own open orders. */
  class Exchange {
    var open: map<string, Live>

    constructor (open: map<string, Live>)
      ensures this.open == open
    {
      this.open := open;
    }

    /** Orders leave the book: cancellations that worked, and fills. */
    method Lose(ids: set<string>)
      modifies this
      ensures open == old(open) - ids
    {
      open := open - ids;
    }

    method Create(id: string, order: Row)
      modifies this
      ensures open == old(open)[id := Live(order.side, order.price)]
    {
      open := open[id := Live(order.side, order.price)];
    }
  }

  /** Everything the exchange decides while one plan is placed. */
  datatype PlaceEnv = PlaceEnv(
    gone: set<string>,           // no longer open when the confirmation read runs
    confirmationRead: bool,      // whether that read succeeds
    batch: bool,                 // whether the venue takes the whole plan in one request
    newIds: seq<string>,         // the ids it gives to created orders
    unnamed: set<nat>,           // the created orders whose response carries no id
    failAt: Option<nat>,         // the create request that raises
    failedExists: bool,          // whether the raising request left an order behind
    batchCreated: set<nat>,      // the orders a raising batch left behind
    emergencyGone: set<string>,  // what the emergency cancel removes
    failureRead: bool)           // whether the read after a failed creation succeeds

  datatype Execution =
    | CancelRetry(remaining: set<string>)
    | CreateFailed(active: set<string>)
    | Placed(placedIds: seq<string>, active: set<string>)

  /** The book after creating the first orders of a plan under the given ids. */
  function Added(before: map<string, Live>, orders: seq<Row>, ids: seq<string>): map<string, Live>
    requires |orders| <= |ids|
  {
    if orders == [] then before
    else
      var n := |orders| - 1;
      Added(before, orders[..n], ids)[ids[n] := Live(orders[n].side, orders[n].price)]
  }

  /** The ids the responses to the first requests carried. */
  function Named(ids: seq<string>, count: nat, unnamed: set<nat>): seq<string>
    requires count <= |ids|
  {
    if count == 0 then [] else Named(ids, count - 1, unnamed) + (if count - 1 in unnamed then [] else [ids[count - 1]])
  }

  /** The book after creating only some of the orders: a raising batch creates its orders independently. */
  function AddedSome(before: map<string, Live>, orders: seq<Row>, ids: seq<string>, created: set<nat>): map<string, Live>
    requires |orders| <= |ids|
  {
    if orders == [] then before
    else
      var n := |orders| - 1;
      var book := AddedSome(before, orders[..n], ids, created);
      if n in created then book[ids[n] := Live(orders[n].side, orders[n].price)] else book
  }

  /** The book a failed creation leaves: what a raising batch created, or the orders before the raising
      request and possibly its own, less what the emergency cancel removed. */
  ghost function AfterFailure(start: map<string, Live>, selected: seq<Row>, env: PlaceEnv): map<string, Live>
    requires |env.newIds| == |selected| + 1 && env.failAt.Some? && env.failAt.value < |selected|
  {
    if env.batch then AddedSome(start, selected, env.newIds, env.batchCreated)
    else
      var k, extra := env.failAt.value, env.newIds[|selected|];
      var added := Added(start, selected[..k], env.newIds);
      (if env.failedExists then added[extra := Live(selected[k].side, selected[k].price)] else added)
      - (set id | id in Named(env.newIds, k, env.unnamed)) * env.emergencyGone
  }

  /** The ids reported as active after a failed creation. */
  ghost function ActiveAfterFailure(book: map<string, Live>, retained: set<string>, env: PlaceEnv): set<string>
    requires env.failAt.Some? && env.failAt.value <= |env.newIds|
  {
    if env.batch then (if env.failureRead then book.Keys else {})
    else retained + (if env.failureRead then book.Keys * (set id | id in Named(env.newIds, env.failAt.value, env.unnamed)) else {})
  }

  ghost predicate FreshIds(ids: seq<string>, used: set<string>) {
    && (forall a, b :: 0 <= a < b < |ids| ==> ids[a] != ids[b])
    && (forall a :: 0 <= a < |ids| ==> ids[a] !in used && ids[a] != "")
  }

  ghost predicate Attempted(cancels: seq<string>, cancelAll: bool) {
    cancels != [] || cancelAll
  }

  /** The book when creation starts. */
  ghost function Confirmed(before: map<string, Live>, cancels: seq<string>, cancelAll: bool, env: PlaceEnv): map<string, Live> {
    if Attempted(cancels, cancelAll) then before - env.gone else before
  }

  /** Every order of `after` was in `before`, or is one of `orders` under one of `ids`. */
  ghost predicate OnlyAdds(before: map<string, Live>, orders: seq<Row>, ids: seq<string>, after: map<string, Live>) {
    forall id :: id in after ==>
      || (id in before && after[id] == before[id])
      || (id in ids && exists r :: r in orders && after[id] == Live(r.side, r.price))
  }

  /** The reported ids are those of the created orders whose responses carried one. */
  lemma {:induction false} NamedAre(ids: seq<string>, count: nat, unnamed: set<nat>)
    requires count <= |ids|
    ensures forall id :: id in Named(ids, count, unnamed) <==> exists n: nat :: n < count && n !in unnamed && ids[n] == id
  {
    if count > 0 {
      NamedAre(ids, count - 1, unnamed);
    }
  }

  /** After a raising request, an order created before it stays open exactly when its response carried no id
      or its emergency cancellation did not work. */
  ghost predicate KeepsUnreachable(book: map<string, Live>, env: PlaceEnv)
    requires env.failAt.Some? && env.failAt.value <= |env.newIds|
  {
    forall n :: 0 <= n < env.failAt.value ==> (env.newIds[n] in book <==> n in env.unnamed || env.newIds[n] !in env.emergencyGone)
  }

  lemma FailureKeepsUnreachable(start: map<string, Live>, selected: seq<Row>, env: PlaceEnv)
    requires |env.newIds| == |selected| + 1 && FreshIds(env.newIds, start.Keys)
    requires env.failAt.Some? && env.failAt.value < |selected| && !env.batch
    ensures KeepsUnreachable(AfterFailure(start, selected, env), env)
  {
    var k := env.failAt.value;
    AddedIs(start, selected[..k], env.newIds);
    NamedAre(env.newIds, k, env.unnamed);
    forall n | 0 <= n < k
      ensures env.newIds[n] in AfterFailure(start, selected, env) <==> n in env.unnamed || env.newIds[n] !in env.emergencyGone
    {
      assert forall j :: 0 <= j < k && env.newIds[j] == env.newIds[n] ==> j == n;
    }
  }

  /** A raising batch leaves exactly the orders it created. */
  lemma {:induction false} AddedSomeIs(before: map<string, Live>, orders: seq<Row>, ids: seq<string>, created: set<nat>)
    requires |orders| <= |ids| && FreshIds(ids, before.Keys)
    ensures forall n :: 0 <= n < |orders| ==> (ids[n] in AddedSome(before, orders, ids, created) <==> n in created)
    ensures AddedSome(before, orders, ids, created).Keys <= before.Keys + set n | 0 <= n < |orders| :: ids[n]
  {
    if orders != [] {
      AddedSomeIs(before, orders[..|orders| - 1], ids, created);
      assert (set n | 0 <= n < |orders| :: ids[n]) == (set n | 0 <= n < |orders| - 1 :: ids[n]) + {ids[|orders| - 1]};
    }
  }

  method PlacePlan(ex: Exchange, selected: seq<Row>, cancels: seq<string>, cancelAll: bool, retained: set<string>, env: PlaceEnv)
    returns (x: Execution)
    requires |env.newIds| == |selected| + 1 && FreshIds(env.newIds, ex.open.Keys)
    requires env.failAt.Some? ==> env.failAt.value < |selected|
    modifies ex
    // creation starts after a cancel attempt exactly when a read shows the retained orders and nothing else
    ensures x.CancelRetry? <==> Attempted(cancels, cancelAll) && !(env.confirmationRead && (old(ex.open) - env.gone).Keys == retained)
    ensures x.CancelRetry? ==> ex.open == old(ex.open) - env.gone
    ensures x.Placed? <==> !x.CancelRetry? && env.failAt.None?
    ensures x.Placed? ==> ex.open == Added(Confirmed(old(ex.open), cancels, cancelAll, env), selected, env.newIds)
    ensures x.Placed? ==> x.placedIds == Named(env.newIds, |selected|, env.unnamed) && x.active == retained + set id | id in x.placedIds
    ensures x.Placed? ==> forall n :: 0 <= n < |selected| && n !in env.unnamed ==> env.newIds[n] in x.active
    // an order created before the raising request stays exactly when its id is unknown or its emergency cancel failed
    ensures x.CreateFailed? && !env.batch ==> KeepsUnreachable(ex.open, env)
    ensures x.CreateFailed? && env.batch ==> forall n :: 0 <= n < |selected| ==> (env.newIds[n] in ex.open <==> n in env.batchCreated)
    // the whole book and the reported ids after a failed creation: confirmed orders and some of the selected ones
    ensures x.CreateFailed? ==> env.failAt.Some? && ex.open == AfterFailure(Confirmed(old(ex.open), cancels, cancelAll, env), selected, env)
    ensures x.CreateFailed? ==> x.active == ActiveAfterFailure(ex.open, retained, env)
    ensures x.CreateFailed? ==> OnlyAdds(Confirmed(old(ex.open), cancels, cancelAll, env), selected, env.newIds, ex.open)
  {
    if cancels != [] || cancelAll {
      ex.Lose(env.gone);
      if !env.confirmationRead || ex.open.Keys != retained {
        return CancelRetry(ex.open.Keys);
      }
    }
    if env.batch && env.failAt.Some? {
      AddedSomeIs(ex.open, selected, env.newIds, env.batchCreated);
      var active := CreateSome(ex, selected, env);
      return CreateFailed(active);
    }
    ghost var start := ex.open;
    var placed, raised := CreateInTurn(ex, selected, env);
    if raised {
      FailureKeepsUnreachable(start, selected, env);
      return CreateFailed(retained + (if env.failureRead then ex.open.Keys * (set id | id in placed) else {}));
    }
    NamedAre(env.newIds, |selected|, env.unnamed);
    return Placed(placed, retained + set id | id in placed);
  }

  lemma {:induction false} AddedOnlyAdds(before: map<string, Live>, orders: seq<Row>, ids: seq<string>, k: nat)
    requires k <= |orders| <= |ids|
    ensures OnlyAdds(before, orders, ids, Added(before, orders[..k], ids))
  {
    if k > 0 {
      AddedOnlyAdds(before, orders, ids, k - 1);
      assert orders[..k][..k - 1] == orders[..k - 1];
      OneMoreOnlyAdds(before, orders, ids, Added(before, orders[..k - 1], ids), ids[k - 1], orders[k - 1]);
    }
  }

  lemma OneMoreOnlyAdds(before: map<string, Live>, orders: seq<Row>, ids: seq<string>, book: map<string, Live>, id: string, order: Row)
    requires OnlyAdds(before, orders, ids, book) && id in ids && order in orders
    ensures OnlyAdds(before, orders, ids, book[id := Live(order.side, order.price)])
  {
  }

  lemma FailureOnlyAdds(before: map<string, Live>, orders: seq<Row>, env: PlaceEnv)
    requires |env.newIds| == |orders| + 1 && env.failAt.Some? && env.failAt.value < |orders| && !env.batch
    ensures OnlyAdds(before, orders, env.newIds, AfterFailure(before, orders, env))
  {
    var k := env.failAt.value;
    AddedOnlyAdds(before, orders, env.newIds, k);
    OneMoreOnlyAdds(before, orders, env.newIds, Added(before, orders[..k], env.newIds), env.newIds[|orders|], orders[k]);
  }

  /** Orders are created one after the other; when one raises, those before it whose
      responses carried an id are cancelled at once. */
  method CreateInTurn(ex: Exchange, selected: seq<Row>, env: PlaceEnv) returns (placed: seq<string>, raised: bool)
    requires |env.newIds| == |selected| + 1 && (env.failAt.Some? ==> env.failAt.value < |selected| && !env.batch)
    modifies ex
    ensures raised <==> env.failAt.Some?
    ensures !raised ==> ex.open == Added(old(ex.open), selected, env.newIds) && placed == Named(env.newIds, |selected|, env.unnamed)
    ensures raised ==> ex.open == AfterFailure(old(ex.open), selected, env) && placed == Named(env.newIds, env.failAt.value, env.unnamed)
    ensures OnlyAdds(old(ex.open), selected, env.newIds, ex.open)
  {
    ghost var start := ex.open;
    placed, raised := [], false;
    for n := 0 to |selected|
      invariant placed == Named(env.newIds, n, env.unnamed)
      invariant ex.open == Added(start, selected[..n], env.newIds)
      invariant env.failAt.Some? ==> n <= env.failAt.value
    {
      if env.failAt == Some(n) {
        if env.failedExists {
          ex.Create(env.newIds[|selected|], selected[n]);
        }
        ex.Lose((set id | id in placed) * env.emergencyGone);
        FailureOnlyAdds(start, selected, env);
        return placed, true;
      }
      assert selected[..n + 1][..n] == selected[..n];
      ex.Create(env.newIds[n], selected[n]);
      if n !in env.unnamed {
        placed := placed + [env.newIds[n]];
      }
    }
    assert selected[..|selected|] == selected;
    AddedOnlyAdds(start, selected, env.newIds, |selected|);
  }

  /** A batch that raised: some of its orders exist, and every open order is reported if the read succeeds. */
  method CreateSome(ex: Exchange, selected: seq<Row>, env: PlaceEnv) returns (active: set<string>)
    requires |env.newIds| == |selected| + 1
    modifies ex
    ensures ex.open == AddedSome(old(ex.open), selected, env.newIds, env.batchCreated)
    ensures OnlyAdds(old(ex.open), selected, env.newIds, ex.open)
    ensures active == if env.failureRead then ex.open.Keys else {}
  {
    ghost var start := ex.open;
    for n := 0 to |selected|
      invariant ex.open == AddedSome(start, selected[..n], env.newIds, env.batchCreated)
      invariant OnlyAdds(start, selected, env.newIds, ex.open)
    {
      assert selected[..n + 1][..n] == selected[..n];
      assert env.newIds[n] in env.newIds && selected[n] in selected;
      if n in env.batchCreated {
        ex.Create(env.newIds[n], selected[n]);
      }
    }
    assert selected[..|selected|] == selected;
    active := if env.failureRead then ex.open.Keys else {};
  }

  lemma {:induction false} AddedIs(before: map<string, Live>, orders: seq<Row>, ids: seq<string>)
    requires |orders| <= |ids| && FreshIds(ids, before.Keys)
    ensures Added(before, orders, ids).Keys == before.Keys + set n | 0 <= n < |orders| :: ids[n]
    ensures forall id :: id in before ==> Added(before, orders, ids)[id] == before[id]
    ensures forall n :: 0 <= n < |orders| ==> ids[n] in Added(before, orders, ids)
                                              && Added(before, orders, ids)[ids[n]] == Live(orders[n].side, orders[n].price)
  {
    if orders != [] {
      AddedIs(before, orders[..|orders| - 1], ids);
      assert (set n | 0 <= n < |orders| :: ids[n]) == (set n | 0 <= n < |orders| - 1 :: ids[n]) + {ids[|orders| - 1]};
    }
  }

  lemma {:induction false} AddedUsesPrefix(before: map<string, Live>, orders: seq<Row>, ids: seq<string>)
    requires |orders| <= |ids|
    ensures Added(before, orders, ids) == Added(before, orders, ids[..|orders|])
  {
    if orders != [] {
      var n := |orders| - 1;
      AddedUsesPrefix(before, orders[..n], ids);
      AddedUsesPrefix(before, orders[..n], ids[..n + 1]);
      assert ids[..n + 1][..n] == ids[..n];
    }
  }
}
