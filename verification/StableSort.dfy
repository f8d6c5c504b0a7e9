/** Stable sorting by a real rank: what the source's `sorted(..., key=...)` calls do.
    A call with `reverse=True` is the same sort on the negated rank, because reversal
    keeps ties in input order too. */
module StableSort {

  datatype Ranked<+T> = Ranked(rank: real, item: T)

  ghost predicate Sorted<T>(s: seq<Ranked<T>>) {
    forall i, j :: 0 <= i < j < |s| ==> s[i].rank <= s[j].rank
  }

  ghost predicate StrictlySorted<T>(s: seq<Ranked<T>>) {
    forall i, j :: 0 <= i < j < |s| ==> s[i].rank < s[j].rank
  }

  ghost predicate NoDuplicates<T>(s: seq<T>) {
    forall i, j :: 0 <= i < j < |s| ==> s[i] != s[j]
  }

  ghost predicate DistinctItems<T>(s: seq<Ranked<T>>) {
    forall i, j :: 0 <= i < j < |s| ==> s[i].item != s[j].item
  }

  ghost predicate HasItem<T>(s: seq<Ranked<T>>, item: T) {
    exists i :: 0 <= i < |s| && s[i].item == item
  }

  function Insert<T>(x: Ranked<T>, s: seq<Ranked<T>>): seq<Ranked<T>> {
    if s == [] || x.rank <= s[0].rank then [x] + s else [s[0]] + Insert(x, s[1..])
  }

  function Sort<T>(s: seq<Ranked<T>>): seq<Ranked<T>> {
    if s == [] then [] else Insert(s[0], Sort(s[1..]))
  }

  lemma {:induction false} InsertAddsOne<T>(x: Ranked<T>, s: seq<Ranked<T>>)
    ensures multiset(Insert(x, s)) == multiset(s) + multiset{x}
  {
    if s == [] || x.rank <= s[0].rank {
    } else {
      InsertAddsOne(x, s[1..]);
      assert s == [s[0]] + s[1..];
    }
  }

  lemma {:induction false} InsertKeepsSorted<T>(x: Ranked<T>, s: seq<Ranked<T>>)
    requires Sorted(s)
    ensures Sorted(Insert(x, s))
  {
    if s == [] || x.rank <= s[0].rank {
    } else {
      var tail := s[1..];
      InsertKeepsSorted(x, tail);
      InsertAddsOne(x, tail);
      var rest := Insert(x, tail);
      forall j | 0 <= j < |rest|
        ensures s[0].rank <= rest[j].rank
      {
        assert rest[j] in multiset(tail) + multiset{x};
        if rest[j] != x {
          assert rest[j] in tail;
        }
      }
    }
  }

  /** Sorting orders by rank and neither adds, drops nor changes an element. */
  lemma {:induction false} SortSortsAndPermutes<T>(s: seq<Ranked<T>>)
    ensures Sorted(Sort(s))
    ensures multiset(Sort(s)) == multiset(s)
    ensures |Sort(s)| == |s|
  {
    if s != [] {
      SortSortsAndPermutes(s[1..]);
      InsertKeepsSorted(s[0], Sort(s[1..]));
      InsertAddsOne(s[0], Sort(s[1..]));
      assert s == [s[0]] + s[1..];
    }
    assert |multiset(Sort(s))| == |multiset(s)|;
  }

  lemma SortMembership<T>(s: seq<Ranked<T>>, x: Ranked<T>)
    ensures x in Sort(s) <==> x in s
  {
    SortSortsAndPermutes(s);
    assert x in multiset(Sort(s)) <==> x in multiset(s);
  }

  /** The elements of one rank, in order. */
  function WithRank<T>(s: seq<Ranked<T>>, r: real): seq<Ranked<T>> {
    if s == [] then []
    else (if s[0].rank == r then [s[0]] else []) + WithRank(s[1..], r)
  }

  lemma WithRankCons<T>(x: Ranked<T>, s: seq<Ranked<T>>, r: real)
    ensures WithRank([x] + s, r) == (if x.rank == r then [x] else []) + WithRank(s, r)
  {
  }

  lemma {:induction false} InsertIsStable<T>(x: Ranked<T>, s: seq<Ranked<T>>, r: real)
    requires Sorted(s)
    ensures WithRank(Insert(x, s), r) == (if x.rank == r then [x] else []) + WithRank(s, r)
  {
    if s == [] || x.rank <= s[0].rank {
      WithRankCons(x, s, r);
    } else {
      InsertIsStable(x, s[1..], r);
      WithRankCons(s[0], Insert(x, s[1..]), r);
      if x.rank == r {
        assert s[0].rank != r;
      }
    }
  }

  /** Stability: elements of equal rank keep their input order. */
  lemma {:induction false} SortIsStable<T>(s: seq<Ranked<T>>, r: real)
    ensures WithRank(Sort(s), r) == WithRank(s, r)
  {
    if s != [] {
      SortIsStable(s[1..], r);
      SortSortsAndPermutes(s[1..]);
      InsertIsStable(s[0], Sort(s[1..]), r);
    }
  }

  lemma AppendNoDuplicates<T>(s: seq<T>, x: T)
    requires NoDuplicates(s) && x !in s
    ensures NoDuplicates(s + [x])
  {
  }

  lemma {:induction false} CountDistinct<T>(s: seq<T>)
    requires NoDuplicates(s)
    ensures |set x | x in s| == |s|
  {
    if s != [] {
      var front, last := s[..|s| - 1], s[|s| - 1];
      assert s == front + [last];
      CountDistinct(front);
      assert (set x | x in s) == (set x | x in front) + {last};
    }
  }

  lemma SameMembersSameLength<T>(a: seq<T>, b: seq<T>)
    requires NoDuplicates(a) && NoDuplicates(b)
    requires forall x :: x in a <==> x in b
    ensures |a| == |b|
  {
    CountDistinct(a);
    CountDistinct(b);
    assert (set x | x in a) == (set x | x in b);
  }

  lemma {:induction false} InsertKeepsNoDuplicates<T>(x: Ranked<T>, s: seq<Ranked<T>>)
    requires NoDuplicates(s) && x !in s
    ensures NoDuplicates(Insert(x, s))
  {
    if s == [] || x.rank <= s[0].rank {
    } else {
      InsertKeepsNoDuplicates(x, s[1..]);
      InsertAddsOne(x, s[1..]);
      assert s[0] !in multiset(Insert(x, s[1..]));
    }
  }

  lemma {:induction false} SortKeepsNoDuplicates<T>(s: seq<Ranked<T>>)
    requires NoDuplicates(s)
    ensures NoDuplicates(Sort(s))
  {
    if s != [] {
      SortKeepsNoDuplicates(s[1..]);
      SortMembership(s[1..], s[0]);
      InsertKeepsNoDuplicates(s[0], Sort(s[1..]));
    }
  }

  /** Two strictly sorted sequences with the same elements are the same sequence. */
  lemma {:induction false} StrictlySortedIsUnique<T>(a: seq<Ranked<T>>, b: seq<Ranked<T>>)
    requires StrictlySorted(a) && StrictlySorted(b)
    requires |a| == |b| && forall x :: x in a <==> x in b
    ensures a == b
  {
    if a != [] {
      HeadIsLeast(a, b[0]);
      HeadIsLeast(b, a[0]);
      forall x
        ensures x in a[1..] <==> x in b[1..]
      {
        TailMembership(a, x);
        TailMembership(b, x);
      }
      StrictlySortedIsUnique(a[1..], b[1..]);
      assert a == [a[0]] + a[1..] && b == [b[0]] + b[1..];
    }
  }

  lemma StrictRanksGiveOrder<T>(a: seq<Ranked<T>>, i: nat, j: nat)
    requires StrictlySorted(a) && i < |a| && j < |a| && a[i].rank < a[j].rank
    ensures i < j
  {
  }

  lemma HeadIsLeast<T>(a: seq<Ranked<T>>, x: Ranked<T>)
    requires StrictlySorted(a) && a != []
    ensures x in a ==> x == a[0] || a[0].rank < x.rank
  {
  }

  lemma TailMembership<T>(a: seq<Ranked<T>>, x: Ranked<T>)
    requires StrictlySorted(a) && a != []
    ensures x in a[1..] <==> x in a && x != a[0]
  {
  }

  // ---- renaming the sorted items ----

  function MapItems<T, U>(f: T -> U, s: seq<Ranked<T>>): seq<Ranked<U>> {
    if s == [] then [] else [Ranked(s[0].rank, f(s[0].item))] + MapItems(f, s[1..])
  }

  lemma {:induction false} MapItemsAt<T, U>(f: T -> U, s: seq<Ranked<T>>)
    ensures |MapItems(f, s)| == |s|
    ensures forall i :: 0 <= i < |s| ==> MapItems(f, s)[i] == Ranked(s[i].rank, f(s[i].item))
  {
    if s != [] {
      MapItemsAt(f, s[1..]);
    }
  }

  lemma {:induction false} MapItemsAppend<T, U>(f: T -> U, s: seq<Ranked<T>>, x: Ranked<T>)
    ensures MapItems(f, s + [x]) == MapItems(f, s) + [Ranked(x.rank, f(x.item))]
  {
    MapItemsAt(f, s);
    MapItemsAt(f, s + [x]);
  }

  lemma {:induction false} InsertMapItems<T, U>(f: T -> U, x: Ranked<T>, s: seq<Ranked<T>>)
    ensures MapItems(f, Insert(x, s)) == Insert(Ranked(x.rank, f(x.item)), MapItems(f, s))
  {
    if s == [] || x.rank <= s[0].rank {
      assert ([x] + s)[1..] == s;
    } else {
      InsertMapItems(f, x, s[1..]);
      var rest := Insert(x, s[1..]);
      assert ([s[0]] + rest)[1..] == rest;
      assert MapItems(f, s)[1..] == MapItems(f, s[1..]);
    }
  }

  /** Sorting looks at ranks only, so it commutes with renaming the items. */
  lemma {:induction false} SortMapItems<T, U>(f: T -> U, s: seq<Ranked<T>>)
    ensures Sort(MapItems(f, s)) == MapItems(f, Sort(s))
  {
    if s != [] {
      SortMapItems(f, s[1..]);
      InsertMapItems(f, s[0], Sort(s[1..]));
      assert MapItems(f, s)[1..] == MapItems(f, s[1..]);
    }
  }
}
