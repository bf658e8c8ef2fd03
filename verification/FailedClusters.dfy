// Failed clusters, counted, and what one more row does to the counts.
module FailedClusters {
  import opened Prelude
  import opened Clusters

  /** Clusters in which some row fails. */
  function FailedKeys(rows: seq<Row>, ok: Row -> bool): set<Key> {
    set i | 0 <= i < |rows| && !ok(rows[i]) :: KeyOf(rows[i], i)
  }

  predicate AnyFails(s: seq<Row>, ok: Row -> bool) {
    exists r :: r in s && !ok(r)
  }

  method CountFailed(rows: seq<Row>, ok: Row -> bool) returns (clusters: nat, failed: nat)
    ensures clusters == |Keys(rows)| && failed == |FailedKeys(rows, ok)| <= clusters
  {
    var order, groups := GroupByCluster(rows);
    clusters, failed := |order|, 0;
    KeysAre(rows);
    FailedCount(rows, ok);
    FailedAmong(rows, ok, order);
    hide Keys, Members, FailedKeys, AnyFails, NoDuplicates, FailedWithin;
    for i := 0 to |order|
      invariant failed == FailedWithin(rows, ok, order[..i])
    {
      OneMoreKey(rows, ok, order, i);
      if AnyFails(groups[order[i]], ok) {
        failed := failed + 1;
      }
    }
    assert order[..|order|] == order;
  }

  /** How many of the listed clusters failed. */
  ghost function FailedWithin(rows: seq<Row>, ok: Row -> bool, keys: seq<Key>): nat {
    |FailedKeys(rows, ok) * Elements(keys)|
  }

  lemma FailedAmong(rows: seq<Row>, ok: Row -> bool, order: seq<Key>)
    ensures FailedWithin(rows, ok, []) == 0
    ensures order == Keys(rows) ==> FailedWithin(rows, ok, order) == |FailedKeys(rows, ok)|
  {
    FailedAreKeys(rows, ok);
    assert order == Keys(rows) ==> FailedKeys(rows, ok) * Elements(order) == FailedKeys(rows, ok);
  }

  lemma OneMoreKey(rows: seq<Row>, ok: Row -> bool, order: seq<Key>, i: nat)
    requires i < |order| && NoDuplicates(order)
    ensures FailedWithin(rows, ok, order[..i + 1])
            == FailedWithin(rows, ok, order[..i]) + if AnyFails(Members(rows, order[i]), ok) then 1 else 0
  {
    hide FailedKeys, AnyFails, Members, NoDuplicates;
    FailedMember(rows, ok, order[i]);
    PrefixMeet(FailedKeys(rows, ok), order, i);
  }

  lemma PrefixMeet(bad: set<Key>, order: seq<Key>, i: nat)
    requires i < |order| && NoDuplicates(order)
    ensures |bad * Elements(order[..i + 1])| == |bad * Elements(order[..i])| + if order[i] in bad then 1 else 0
  {
    var k := order[i];
    assert order[..i + 1] == order[..i] + [k];
    assert k !in Elements(order[..i]);
    if k in bad {
      assert bad * Elements(order[..i + 1]) == bad * Elements(order[..i]) + {k};
    } else {
      assert bad * Elements(order[..i + 1]) == bad * Elements(order[..i]);
    }
  }

  lemma {:induction false} MemberRow(rows: seq<Row>, k: Key, r: Row)
    ensures r in Members(rows, k) <==> exists i :: 0 <= i < |rows| && KeyOf(rows[i], i) == k && rows[i] == r
  {
    if rows != [] {
      var before, n := Init(rows), |rows| - 1;
      MemberRow(before, k, r);
      if i :| 0 <= i < |before| && KeyOf(before[i], i) == k && before[i] == r {
        assert KeyOf(rows[i], i) == k && rows[i] == r;
      }
      if i :| 0 <= i < |rows| && KeyOf(rows[i], i) == k && rows[i] == r {
        if i < n { assert KeyOf(before[i], i) == k && before[i] == r; }
      }
    }
  }

  lemma FailedMember(rows: seq<Row>, ok: Row -> bool, k: Key)
    ensures k in FailedKeys(rows, ok) <==> AnyFails(Members(rows, k), ok)
  {
    if i :| 0 <= i < |rows| && !ok(rows[i]) && KeyOf(rows[i], i) == k { MemberRow(rows, k, rows[i]); }
    if r :| r in Members(rows, k) && !ok(r) { MemberRow(rows, k, r); }
  }

  lemma FailedAreKeys(rows: seq<Row>, ok: Row -> bool)
    ensures FailedKeys(rows, ok) <= Elements(Keys(rows))
  {
    KeysAre(rows);
  }

  lemma KeysAppend(rows: seq<Row>, r: Row)
    ensures var k := KeyOf(r, |rows|);
            Keys(rows + [r]) == if k in Keys(rows) then Keys(rows) else Keys(rows) + [k]
  {
    assert Init(rows + [r]) == rows;
  }

  lemma FailedAppend(rows: seq<Row>, r: Row, ok: Row -> bool)
    ensures FailedKeys(rows + [r], ok) == FailedKeys(rows, ok) + if ok(r) then {} else {KeyOf(r, |rows|)}
  {
    var rows', k := rows + [r], KeyOf(r, |rows|);
    forall key | key in FailedKeys(rows, ok) ensures key in FailedKeys(rows', ok) {
      var i :| 0 <= i < |rows| && !ok(rows[i]) && KeyOf(rows[i], i) == key;
      assert rows'[i] == rows[i];
    }
    if !ok(r) { assert rows'[|rows|] == r; }
    forall key | key in FailedKeys(rows', ok) ensures key in FailedKeys(rows, ok) || (!ok(r) && key == k) {
      var i :| 0 <= i < |rows'| && !ok(rows'[i]) && KeyOf(rows'[i], i) == key;
      if i < |rows| { assert rows'[i] == rows[i]; }
    }
  }

  /** One more row: how the number of clusters and of failed clusters can move. */
  lemma CountsAppend(rows: seq<Row>, r: Row, ok: Row -> bool)
    ensures var n, f, n', f' := |Keys(rows)|, |FailedKeys(rows, ok)|, |Keys(rows + [r])|, |FailedKeys(rows + [r], ok)|;
      && f <= n && f' <= n' && 0 < n' && (rows != [] ==> 0 < n)
      && n' == (if KeyOf(r, |rows|) in Keys(rows) then n else n + 1)
      && (ok(r) ==> f' == f)
      && (!ok(r) ==> 0 < f' && if n' == n then f <= f' <= f + 1 else f' == f + 1)
  {
    var k := KeyOf(r, |rows|);
    KeysAppend(rows, r);
    FailedAppend(rows, r, ok);
    KeysAre(rows);
    if rows != [] { assert KeyOf(rows[0], 0) in Keys(rows); }
    FailedCount(rows, ok);
    FailedCount(rows + [r], ok);
    FailedAreKeys(rows, ok);
  }

  lemma FailedCount(rows: seq<Row>, ok: Row -> bool)
    ensures |FailedKeys(rows, ok)| <= |Keys(rows)|
  {
    KeysAre(rows);
    FailedAreKeys(rows, ok);
    DistinctCount(Keys(rows));
    SubsetCount(FailedKeys(rows, ok), Elements(Keys(rows)));
  }

  lemma {:induction false} DistinctCount(ks: seq<Key>)
    requires NoDuplicates(ks)
    ensures |Elements(ks)| == |ks|
  {
    if ks != [] {
      DistinctCount(Init(ks));
      assert Elements(ks) == Elements(Init(ks)) + {Last(ks)};
    }
  }

  lemma SubsetCount<T>(a: set<T>, b: set<T>)
    requires a <= b
    ensures |a| <= |b|
  {
    assert b == a + (b - a);
  }

  // --- the counts do not depend on where a row stands ------------------------------------------

  function Ids(rows: seq<Row>, ok: Row -> bool): set<int> {
    set r | r in rows && r.cluster.Some? && !ok(r) :: r.cluster.value
  }

  /** Rows without an id, which are clusters of their own. */
  function Unnamed(rows: seq<Row>, ok: Row -> bool): nat {
    if rows == [] then 0 else Unnamed(Init(rows), ok) + if Last(rows).cluster.None? && !ok(Last(rows)) then 1 else 0
  }

  function Never(r: Row): bool {
    false
  }

  lemma IdsAppend(rows: seq<Row>, r: Row, ok: Row -> bool)
    ensures Ids(rows + [r], ok) == Ids(rows, ok) + (if r.cluster.Some? && !ok(r) then {r.cluster.value} else {})
    ensures Unnamed(rows + [r], ok) == Unnamed(rows, ok) + (if r.cluster.None? && !ok(r) then 1 else 0)
  {
    assert Init(rows + [r]) == rows;
  }

  /** A key of failed rows stands for a failed id, or for the position of a failed row. */
  lemma FailedKeyIs(rows: seq<Row>, ok: Row -> bool, k: Key)
    ensures k.Id? ==> (k in FailedKeys(rows, ok) <==> k.id in Ids(rows, ok))
    ensures k.OwnRow? && k in FailedKeys(rows, ok) ==> k.index < |rows|
  {
    if k.Id? && k.id in Ids(rows, ok) {
      var r :| r in rows && r.cluster.Some? && !ok(r) && r.cluster.value == k.id;
      var i :| 0 <= i < |rows| && rows[i] == r;
      assert KeyOf(rows[i], i) == k;
    }
  }

  lemma AddOne<T>(s: set<T>, x: T)
    ensures |s + {x}| == |s| + if x in s then 0 else 1
  {
    if x in s { assert s + {x} == s; }
  }

  lemma NobodyFails(ok: Row -> bool)
    ensures FailedKeys([], ok) == {} && Ids([], ok) == {} && Unnamed([], ok) == 0
  {
  }

  /** Failed clusters are the failed ids and the failed rows without one. */
  lemma {:induction false} FailedKeysCount(rows: seq<Row>, ok: Row -> bool)
    ensures |FailedKeys(rows, ok)| == |Ids(rows, ok)| + Unnamed(rows, ok)
  {
    hide FailedKeys, Ids, Unnamed;
    if rows == [] {
      NobodyFails(ok);
    } else {
      var rest, r := Init(rows), Last(rows);
      assert rows == rest + [r];
      FailedKeysCount(rest, ok);
      FailedAppend(rest, r, ok);
      IdsAppend(rest, r, ok);
      FailedKeyIs(rest, ok, KeyOf(r, |rest|));
      var ks, ids := FailedKeys(rest, ok), Ids(rest, ok);
      assert ks + {} == ks && ids + {} == ids;
      AddOne(ks, KeyOf(r, |rest|));
      if r.cluster.Some? { AddOne(ids, r.cluster.value); }
    }
  }

  /** Every cluster is a failed one when no row passes. */
  lemma KeysAreAllFailed(rows: seq<Row>)
    ensures |Keys(rows)| == |FailedKeys(rows, Never)|
  {
    KeysAre(rows);
    assert Elements(Keys(rows)) == FailedKeys(rows, Never);
    DistinctCount(Keys(rows));
  }

  lemma {:induction false} UnnamedTogether(a: seq<Row>, b: seq<Row>, ok: Row -> bool)
    ensures Unnamed(a + b, ok) == Unnamed(a, ok) + Unnamed(b, ok)
  {
    if b == [] {
      assert a + b == a;
    } else {
      UnnamedTogether(a, Init(b), ok);
      assert Init(a + b) == a + Init(b);
    }
  }

  lemma FailedKeysMoved(a: seq<Row>, r: Row, b: seq<Row>, ok: Row -> bool)
    ensures |FailedKeys(a + [r] + b, ok)| == |FailedKeys(a + b + [r], ok)|
  {
    FailedKeysCount(a + [r] + b, ok);
    FailedKeysCount(a + b + [r], ok);
    UnnamedTogether(a + [r], b, ok);
    UnnamedTogether(a, [r], ok);
    UnnamedTogether(a + b, [r], ok);
    UnnamedTogether(a, b, ok);
    hide FailedKeys, Unnamed;
    assert Ids(a + [r] + b, ok) == Ids(a + b + [r], ok);
  }

  /** A row counts the same wherever it is put in. */
  lemma CountsMoved(a: seq<Row>, r: Row, b: seq<Row>, ok: Row -> bool)
    ensures |Keys(a + [r] + b)| == |Keys(a + b + [r])|
    ensures |FailedKeys(a + [r] + b, ok)| == |FailedKeys(a + b + [r], ok)|
  {
    FailedKeysMoved(a, r, b, ok);
    FailedKeysMoved(a, r, b, Never);
    KeysAreAllFailed(a + [r] + b);
    KeysAreAllFailed(a + b + [r]);
  }
}
