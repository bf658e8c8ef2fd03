// Stable sorting by a rank, as Python's `sorted` with a key.
module Sorting {
  import opened Prelude

  /** Puts x behind everything that does not rank above it. */
  function Insert<T>(s: seq<T>, x: T, rank: T -> real): seq<T> {
    if s == [] || rank(Last(s)) <= rank(x) then s + [x] else Insert(Init(s), x, rank) + [Last(s)]
  }

  function Sort<T>(s: seq<T>, rank: T -> real): seq<T> {
    if s == [] then [] else Insert(Sort(Init(s), rank), Last(s), rank)
  }

  ghost predicate Ordered<T(!new)>(s: seq<T>, rank: T -> real) {
    forall i, j :: 0 <= i <= j < |s| ==> rank(s[i]) <= rank(s[j])
  }

  lemma {:induction false} InsertOrders<T(!new)>(s: seq<T>, x: T, rank: T -> real)
    requires Ordered(s, rank)
    ensures Ordered(Insert(s, x, rank), rank) && Insert(s, x, rank) != []
    ensures Last(Insert(s, x, rank)) == if s == [] || rank(Last(s)) <= rank(x) then x else Last(s)
  {
    if s != [] && rank(Last(s)) > rank(x) { InsertOrders(Init(s), x, rank); }
  }

  lemma {:induction false} InsertKeeps<T>(s: seq<T>, x: T, rank: T -> real)
    ensures multiset(Insert(s, x, rank)) == multiset(s) + multiset{x}
  {
    if s != [] && rank(Last(s)) > rank(x) {
      assert Insert(s, x, rank) == Insert(Init(s), x, rank) + [Last(s)];
      hide Insert;
      InsertKeeps(Init(s), x, rank);
      assert s == Init(s) + [Last(s)];
    }
  }

  lemma {:induction false} SortSorts<T(!new)>(s: seq<T>, rank: T -> real)
    ensures Ordered(Sort(s, rank), rank) && multiset(Sort(s, rank)) == multiset(s) && |Sort(s, rank)| == |s|
  {
    if s != [] {
      SortSorts(Init(s), rank);
      assert s == Init(s) + [Last(s)];
      assert Sort(s, rank) == Insert(Sort(Init(s), rank), Last(s), rank);
      hide Insert, Sort, Ordered;
      InsertOrders(Sort(Init(s), rank), Last(s), rank);
      InsertKeeps(Sort(Init(s), rank), Last(s), rank);
    }
    assert |multiset(Sort(s, rank))| == |multiset(s)|;
  }
}
