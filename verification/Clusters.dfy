// `group_by_cluster` and the concentration figures of `cluster_profile`.
module Clusters {
  import opened Prelude

  datatype Row = Row(cluster: Option<int>, expected: real, hit: bool)

  /** Dictionary key of a row: its cluster id, or its own position when it has none. */
  datatype Key = Id(id: int) | OwnRow(index: nat)

  function KeyOf(r: Row, i: nat): Key {
    match r.cluster
    case Some(c) => Id(c)
    case None => OwnRow(i)
  }

  /** Keys in order of first appearance, as a dictionary iterates them. */
  function Keys(rows: seq<Row>): seq<Key> {
    if rows == [] then []
    else
      var before, k := Keys(Init(rows)), KeyOf(Last(rows), |rows| - 1);
      if k in before then before else before + [k]
  }

  /** Rows filed under one key, in input order. */
  function Members(rows: seq<Row>, k: Key): seq<Row> {
    if rows == [] then []
    else Members(Init(rows), k) + if KeyOf(Last(rows), |rows| - 1) == k then [Last(rows)] else []
  }

  function Sizes(rows: seq<Row>): seq<nat> {
    var ks := Keys(rows);
    seq(|ks|, i requires 0 <= i < |ks| => |Members(rows, ks[i])|)
  }

  method GroupByCluster(rows: seq<Row>) returns (order: seq<Key>, groups: map<Key, seq<Row>>)
    ensures order == Keys(rows) && groups.Keys == Elements(order)
    ensures forall k :: k in groups ==> groups[k] == Members(rows, k)
  {
    order, groups := [], map[];
    for i := 0 to |rows|
      invariant order == Keys(rows[..i]) && groups.Keys == Elements(order)
      invariant forall k :: k in groups ==> groups[k] == Members(rows[..i], k)
    {
      assert Init(rows[..i + 1]) == rows[..i];
      KeysAre(rows[..i]);
      var k := KeyOf(rows[i], i);
      if k in groups {
        groups := groups[k := groups[k] + [rows[i]]];
      } else {
        order := order + [k];
        groups := groups[k := [rows[i]]];
      }
    }
    assert rows[..|rows|] == rows;
  }

  /** Each key is listed once, and exactly when some row has it. */
  lemma {:induction false} KeysAre(rows: seq<Row>)
    ensures NoDuplicates(Keys(rows))
    ensures forall k :: k in Keys(rows) <==> exists i :: 0 <= i < |rows| && KeyOf(rows[i], i) == k
    ensures forall k :: k in Keys(rows) <==> Members(rows, k) != []
  {
    if rows != [] {
      var before, n := Init(rows), |rows| - 1;
      KeysAre(before);
      forall k
        ensures k in Keys(rows) <==> exists i :: 0 <= i < |rows| && KeyOf(rows[i], i) == k
      {
        if k in Keys(before) {
          var i :| 0 <= i < n && KeyOf(before[i], i) == k;
          assert KeyOf(rows[i], i) == k;
        }
        if i :| 0 <= i < |rows| && KeyOf(rows[i], i) == k {
          if i < n { assert KeyOf(before[i], i) == k; }
        }
      }
    }
  }

  function Sum(s: seq<nat>): nat {
    if s == [] then 0 else Sum(Init(s)) + Last(s)
  }

  function SumSquares(s: seq<nat>): nat {
    if s == [] then 0 else SumSquares(Init(s)) + Last(s) * Last(s)
  }

  lemma {:induction false} SumUpdate(s: seq<nat>, i: nat, x: nat)
    requires i < |s|
    ensures Sum(s[i := x]) == Sum(s) - s[i] + x
  {
    if i < |s| - 1 {
      assert Init(s[i := x]) == Init(s)[i := x];
      SumUpdate(Init(s), i, x);
    } else {
      assert Init(s[i := x]) == Init(s);
    }
  }

  /** One more row adds one to its cluster's size, or opens a cluster of size one. */
  lemma SizesAppend(before: seq<Row>, r: Row)
    ensures var k, ks, sizes := KeyOf(r, |before|), Keys(before), Sizes(before);
            if k in ks then
              exists j :: 0 <= j < |sizes| && ks[j] == k && Sizes(before + [r]) == sizes[j := sizes[j] + 1]
            else Sizes(before + [r]) == sizes + [1]
  {
    var rows, ks := before + [r], Keys(before);
    var k := KeyOf(r, |before|);
    assert Init(rows) == before;
    KeysAre(before);
    if k in ks {
      var j :| 0 <= j < |ks| && ks[j] == k;
      assert Sizes(rows) == Sizes(before)[j := Sizes(before)[j] + 1];
    }
  }

  lemma SumOneMore(s: seq<nat>, x: nat)
    ensures Sum(s + [x]) == Sum(s) + x
  {
    assert Init(s + [x]) == s;
  }

  /** Grouping is a partition: every row is in exactly one cluster. */
  lemma {:induction false} SizesSum(rows: seq<Row>)
    ensures Sum(Sizes(rows)) == |rows|
  {
    if rows != [] {
      var before, r, sizes := Init(rows), Last(rows), Sizes(Init(rows));
      assert rows == before + [r];
      hide Sizes, Keys, Members, Sum;
      SizesSum(before);
      SizesAppend(before, r);
      if j :| 0 <= j < |sizes| && Sizes(rows) == sizes[j := sizes[j] + 1] {
        SumUpdate(sizes, j, sizes[j] + 1);
      } else {
        SumOneMore(sizes, 1);
      }
    } else {
      assert Sizes([]) == [] && Sum([]) == 0;
    }
  }

  /** Sum of the squared distances of the sizes from x. */
  function Spread(s: seq<nat>, x: int): nat {
    if s == [] then 0 else Spread(Init(s), x) + (Last(s) - x) * (Last(s) - x)
  }

  lemma {:induction false} SpreadExpands(s: seq<nat>, x: int)
    ensures Spread(s, x) == SumSquares(s) - 2 * x * Sum(s) + |s| * x * x
  {
    if s != [] {
      SpreadExpands(Init(s), x);
      ExpandStep(|s| - 1, Sum(Init(s)), Last(s), x);
    }
  }

  lemma ExpandStep(m: nat, sum: int, l: int, x: int)
    ensures (l - x) * (l - x) - 2 * x * sum + m * x * x == l * l - 2 * x * (sum + l) + (m + 1) * x * x
  {
  }

  lemma {:induction false} SpreadZero(s: seq<nat>, x: int)
    ensures Spread(s, x) == 0 <==> forall i :: 0 <= i < |s| ==> s[i] == x
  {
    if s != [] {
      var t, d := Init(s), Last(s) - x;
      SpreadZero(t, x);
      assert d * d == 0 <==> d == 0;
      assert d * d >= 0;
      if forall i :: 0 <= i < |s| ==> s[i] == x {
        assert s[|t|] == x;
        assert forall i :: 0 <= i < |t| ==> t[i] == s[i] == x;
      } else if Spread(s, x) == 0 {
        assert forall i :: 0 <= i < |t| ==> s[i] == t[i];
      }
    }
  }

  predicate AllEqual(s: seq<nat>) {
    forall i, j :: 0 <= i < |s| && 0 <= j < |s| ==> s[i] == s[j]
  }

  /** Cauchy-Schwarz for cluster sizes, with its equality case. */
  lemma {:induction false} CauchySchwarz(s: seq<nat>)
    ensures Sum(s) * Sum(s) <= |s| * SumSquares(s)
    ensures Sum(s) * Sum(s) == |s| * SumSquares(s) <==> AllEqual(s)
  {
    if s != [] {
      var t, l := Init(s), Last(s);
      CauchySchwarz(t);
      SpreadExpands(t, l);
      SpreadZero(t, l);
      var m, sum, sq := |t|, Sum(t), SumSquares(t);
      CauchyStep(m, sum, sq, l, Spread(t, l));
      if AllEqual(s) {
        assert forall i :: 0 <= i < m ==> t[i] == s[i] == s[m];
        assert AllEqual(t);
      }
      if AllEqual(t) && Spread(t, l) == 0 {
        assert forall i :: 0 <= i < |s| ==> s[i] == l;
      }
    }
  }

  lemma CauchyStep(m: nat, sum: nat, sq: nat, l: nat, spread: nat)
    requires spread == sq - 2 * l * sum + m * l * l
    ensures (m + 1) * (sq + l * l) - (sum + l) * (sum + l) == (m * sq - sum * sum) + spread
  {
    calc {
      (m + 1) * (sq + l * l) - (sum + l) * (sum + l);
      m * sq + m * (l * l) + sq + l * l - (sum * sum + 2 * l * sum + l * l);
      { assert m * (l * l) == m * l * l; }
      (m * sq - sum * sum) + spread;
    }
  }

  /** Squares are at most the square of the sum, and at most the greatest size times the sum. */
  lemma {:induction false} SquareBounds(s: seq<nat>, greatest: nat)
    requires forall i :: 0 <= i < |s| ==> 0 < s[i] <= greatest
    ensures |s| <= Sum(s)
    ensures SumSquares(s) <= Sum(s) * Sum(s)
    ensures SumSquares(s) == Sum(s) * Sum(s) <==> |s| <= 1
    ensures SumSquares(s) <= greatest * Sum(s)
    ensures s != [] ==> SumSquares(s) > 0
  {
    if s != [] {
      assert Last(s) == s[|s| - 1];
      SquareBounds(Init(s), greatest);
      SquareStep(Sum(Init(s)), SumSquares(Init(s)), Last(s), greatest);
    }
  }

  lemma SquareStep(sum: nat, sq: nat, l: nat, greatest: nat)
    requires 0 < l <= greatest && sq <= sum * sum && sq <= greatest * sum
    ensures 0 < sq + l * l <= (sum + l) * (sum + l)
    ensures sq + l * l == (sum + l) * (sum + l) <==> sq == sum * sum && sum == 0
    ensures sq + l * l <= greatest * (sum + l)
  {
    assert (sum + l) * (sum + l) == sum * sum + 2 * (sum * l) + l * l;
    assert sum > 0 ==> sum * l > 0;
    assert greatest * (sum + l) == greatest * sum + greatest * l;
    assert l * l <= greatest * l;
  }

  /** Kish's effective cluster count (sum m)^2 / sum m^2. */
  function Kish(s: seq<nat>): real
    requires SumSquares(s) > 0
  {
    (Sum(s) * Sum(s)) as real / SumSquares(s) as real
  }

  lemma Ratio(a: int, b: int, c: int, d: int)
    requires b > 0 && d > 0
    ensures a * d <= c * b <==> a as real / b as real <= c as real / d as real
    ensures a * d == c * b <==> a as real / b as real == c as real / d as real
  {
    var x, y := a as real / b as real, c as real / d as real;
    var bd := b as real * d as real;
    assert bd > 0.0;
    assert x * bd == a as real * d as real == (a * d) as real;
    assert y * bd == c as real * b as real == (c * b) as real;
    assert (y - x) * bd == y * bd - x * bd;
    if x <= y { assert (y - x) * bd >= 0.0; }
    if y <= x { assert (x - y) * bd >= 0.0; }
    if x < y { assert (y - x) * bd > 0.0; }
    if y < x { assert (x - y) * bd > 0.0; }
  }

  lemma KishOfSizes(s: seq<nat>, greatest: nat)
    requires s != [] && forall i :: 0 <= i < |s| ==> 0 < s[i] <= greatest
    ensures SumSquares(s) > 0 && greatest > 0
    ensures 1.0 <= Kish(s) <= |s| as real
    ensures Kish(s) == |s| as real <==> AllEqual(s)
    ensures Kish(s) == 1.0 <==> |s| == 1
    ensures Kish(s) >= Sum(s) as real / greatest as real
  {
    SquareBounds(s, greatest);
    CauchySchwarz(s);
    assert 0 < s[0] <= greatest;
    hide Sum, SumSquares, AllEqual;
    KishRatio(Sum(s), Sum(s) * Sum(s), SumSquares(s), |s|, greatest);
  }

  lemma KishRatio(n: nat, nn: nat, q: nat, m: nat, greatest: nat)
    requires 0 < q <= nn <= m * q && nn == n * n && 0 < greatest && q <= greatest * n
    ensures 1.0 <= nn as real / q as real <= m as real
    ensures nn as real / q as real == m as real <==> nn == m * q
    ensures nn as real / q as real == 1.0 <==> q == nn
    ensures nn as real / q as real >= n as real / greatest as real
  {
    Ratio(1, 1, nn, q);
    Ratio(nn, q, m, 1);
    calc {
      n * q;
    <= { assert n * q <= n * (greatest * n); }
      n * (greatest * n);
      (n * n) * greatest;
      nn * greatest;
    }
    Ratio(n, greatest, nn, q);
  }

  /** 1 <= kish <= clusters with both equality cases, and kish >= 1 / (share of the largest cluster). */
  lemma KishBounds(rows: seq<Row>, greatest: nat)
    requires rows != []
    requires greatest in Sizes(rows) && forall m :: m in Sizes(rows) ==> m <= greatest
    ensures SumSquares(Sizes(rows)) > 0 && greatest > 0
    ensures 1.0 <= Kish(Sizes(rows)) <= |Keys(rows)| as real
    ensures Kish(Sizes(rows)) == |Keys(rows)| as real <==> AllEqual(Sizes(rows))
    ensures Kish(Sizes(rows)) == 1.0 <==> |Keys(rows)| == 1
    ensures Kish(Sizes(rows)) >= |rows| as real / greatest as real
  {
    var s := Sizes(rows);
    KeysAre(rows);
    SizesSum(rows);
    assert KeyOf(rows[0], 0) in Keys(rows);
    forall i | 0 <= i < |s| ensures 0 < s[i] <= greatest {
      assert s[i] in s;
      assert Keys(rows)[i] in Keys(rows);
    }
    hide Kish, SumSquares, AllEqual;
    KishOfSizes(s, greatest);
  }
}
