/** Sorting by a key, for the two places that order chunks by address. */
module Sorting {
  predicate InOrder<T>(xs: seq<T>, key: T -> nat, i: nat, j: nat)
    requires i < |xs| && j < |xs|
  {
    key(xs[i]) <= key(xs[j])
  }

  predicate Sorted<T>(xs: seq<T>, key: T -> nat) {
    forall i, j :: 0 <= i < j < |xs| ==> InOrder(xs, key, i, j)
  }

  /** `sorted` with `x` after every element of no greater key. */
  function Insert<T>(sorted: seq<T>, x: T, key: T -> nat): (r: seq<T>)
    ensures multiset(r) == multiset(sorted) + multiset{x}
  {
    if sorted == [] || key(sorted[|sorted| - 1]) <= key(x) then sorted + [x]
    else
      assert sorted == sorted[..|sorted| - 1] + [sorted[|sorted| - 1]];
      Insert(sorted[..|sorted| - 1], x, key) + [sorted[|sorted| - 1]]
  }

  lemma {:induction false} InsertKeepsOrder<T>(sorted: seq<T>, x: T, key: T -> nat)
    requires Sorted(sorted, key)
    ensures Sorted(Insert(sorted, x, key), key)
    ensures forall i :: 0 <= i < |Insert(sorted, x, key)| ==>
      Insert(sorted, x, key)[i] == x || Insert(sorted, x, key)[i] in sorted
  {
    var r := Insert(sorted, x, key);
    if sorted == [] || key(sorted[|sorted| - 1]) <= key(x) {
      forall i, j | 0 <= i < j < |r| ensures InOrder(r, key, i, j) {
        assert i < |sorted| - 1 ==> InOrder(sorted, key, i, |sorted| - 1);
        assert j < |sorted| ==> InOrder(sorted, key, i, j);
      }
    } else {
      var front := sorted[..|sorted| - 1];
      forall i, j | 0 <= i < j < |front| ensures InOrder(front, key, i, j) {
        assert InOrder(sorted, key, i, j);
      }
      InsertKeepsOrder(front, x, key);
      var f := Insert(front, x, key);
      forall i, j | 0 <= i < j < |r| ensures InOrder(r, key, i, j) {
        if j < |f| {
          assert InOrder(f, key, i, j);
        } else if f[i] != x {
          var k :| 0 <= k < |front| && front[k] == f[i];
          assert InOrder(sorted, key, k, |sorted| - 1);
        }
      }
    }
  }

  /** An order `sort_unstable_by_key` may produce; elements of equal key may come in any order. */
  function SortBy<T>(xs: seq<T>, key: T -> nat): (sorted: seq<T>)
    ensures multiset(sorted) == multiset(xs)
  {
    if xs == [] then []
    else
      assert xs == xs[..|xs| - 1] + [xs[|xs| - 1]];
      Insert(SortBy(xs[..|xs| - 1], key), xs[|xs| - 1], key)
  }

  lemma {:induction false} SortByOrders<T>(xs: seq<T>, key: T -> nat)
    ensures Sorted(SortBy(xs, key), key)
  {
    if xs != [] {
      SortByOrders(xs[..|xs| - 1], key);
      InsertKeepsOrder(SortBy(xs[..|xs| - 1], key), xs[|xs| - 1], key);
    }
  }

  /** Sorting keeps every element. */
  lemma SameElements<T(!new)>(sorted: seq<T>, xs: seq<T>)
    requires multiset(sorted) == multiset(xs)
    ensures |sorted| == |xs|
    ensures forall x :: x in sorted <==> x in xs
  {
    assert |sorted| == |multiset(sorted)| == |multiset(xs)| == |xs|;
    assert forall x :: x in sorted <==> x in multiset(sorted);
    assert forall x :: x in xs <==> x in multiset(xs);
  }
}
