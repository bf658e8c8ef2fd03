// `ratio_contrast_ci` against `arm_contrast_ci`: the cells the two bootstraps resample.
module Contrast {
  import opened Prelude
  import opened Clusters

  /** Per cluster: observed and expected hits of arm A, then of arm B. */
  datatype Cell = Cell(obsA: nat, expA: real, obsB: nat, expB: real)

  function Observed(rows: seq<Row>): nat {
    if rows == [] then 0 else Observed(Init(rows)) + if Last(rows).hit then 1 else 0
  }

  function Expected(rows: seq<Row>): real {
    if rows == [] then 0.0 else Expected(Init(rows)) + Last(rows).expected
  }

  /** The rows of one side of the split, in order. */
  function Side(rows: seq<Row>, group: Row -> bool, side: bool): seq<Row> {
    if rows == [] then []
    else Side(Init(rows), group, side) + if group(Last(rows)) == side then [Last(rows)] else []
  }

  function CellOf(a: seq<Row>, b: seq<Row>): Cell {
    Cell(Observed(a), Expected(a), Observed(b), Expected(b))
  }

  /** A cell of the split population: the members of one cluster, divided by the predicate. */
  function RatioCell(rows: seq<Row>, group: Row -> bool, k: Key): Cell {
    CellOf(Side(Members(rows, k), group, true), Side(Members(rows, k), group, false))
  }

  function RatioCells(rows: seq<Row>, group: Row -> bool): seq<Cell> {
    var ks := Keys(rows);
    seq(|ks|, i requires 0 <= i < |ks| => RatioCell(rows, group, ks[i]))
  }

  /** A cell of two separately grouped arms. */
  function ArmCell(a: seq<Row>, b: seq<Row>, k: Key): Cell {
    CellOf(Members(a, k), Members(b, k))
  }

  /** `keys` is the sorted union of the two arms' keys, in whatever order the sort gives. */
  function ArmCells(a: seq<Row>, b: seq<Row>, keys: seq<Key>): seq<Cell> {
    seq(|keys|, i requires 0 <= i < |keys| => ArmCell(a, b, keys[i]))
  }

  predicate Union(keys: seq<Key>, a: seq<Row>, b: seq<Row>) {
    NoDuplicates(keys) && Elements(keys) == Elements(Keys(a)) + Elements(Keys(b))
  }

  /** Rows without a cluster id at one common position of both arms: their keys coincide. */
  ghost predicate IndexKeysMeet(a: seq<Row>, b: seq<Row>) {
    exists i :: 0 <= i < |a| && i < |b| && a[i].cluster.None? && b[i].cluster.None?
  }

  // --- following one row into its arm ----------------------------------------------------------

  /** Position, inside its own side, of row i. */
  function Rank(rows: seq<Row>, group: Row -> bool, i: nat): nat
    requires i < |rows|
  {
    |Side(rows[..i], group, group(rows[i]))|
  }

  lemma {:induction false} RankFindsRow(rows: seq<Row>, group: Row -> bool, i: nat)
    requires i < |rows|
    ensures var side := Side(rows, group, group(rows[i]));
            Rank(rows, group, i) < |side| && side[Rank(rows, group, i)] == rows[i]
  {
    if i == |rows| - 1 {
      assert rows[..i] == Init(rows);
    } else {
      assert Init(rows)[..i] == rows[..i];
      RankFindsRow(Init(rows), group, i);
    }
  }

  lemma {:induction false} RankReaches(rows: seq<Row>, group: Row -> bool, side: bool, j: nat) returns (i: nat)
    requires j < |Side(rows, group, side)|
    ensures i < |rows| && group(rows[i]) == side && Rank(rows, group, i) == j && rows[i] == Side(rows, group, side)[j]
  {
    var before := Init(rows);
    if j < |Side(before, group, side)| {
      i := RankReaches(before, group, side, j);
      assert before[..i] == rows[..i];
    } else {
      i := |rows| - 1;
      assert rows[..i] == before;
    }
  }

  lemma RankIncreases(rows: seq<Row>, group: Row -> bool, i: nat, j: nat)
    requires i < j < |rows| && group(rows[i]) == group(rows[j])
    ensures Rank(rows, group, i) < Rank(rows, group, j)
  {
    var before := rows[..j];
    assert before[..i] == rows[..i] && before[i] == rows[i];
    RankFindsRow(before, group, i);
  }

  /** The key under which the arms file what the split population files under the key of row i. */
  function ArmKey(rows: seq<Row>, group: Row -> bool, i: nat): Key
    requires i < |rows|
  {
    KeyOf(rows[i], Rank(rows, group, i))
  }

  lemma {:induction false} NamedMembers(rows: seq<Row>, group: Row -> bool, side: bool, c: int)
    ensures Members(Side(rows, group, side), Id(c)) == Side(Members(rows, Id(c)), group, side)
  {
    if rows != [] {
      var before, r := Init(rows), Last(rows);
      NamedMembers(before, group, side, c);
      var m, s := Members(before, Id(c)), Side(before, group, side);
      assert Init(m + [r]) == m && Init(s + [r]) == s;
      assert m + [] == m && s + [] == s;
    }
  }

  lemma {:induction false} OwnMembers(rows: seq<Row>, i: nat)
    ensures Members(rows, OwnRow(i)) == if i < |rows| && rows[i].cluster.None? then [rows[i]] else []
  {
    if rows != [] {
      OwnMembers(Init(rows), i);
    }
  }

  /** Each cluster's cell is the same in both constructions while the index keys do not meet. */
  lemma SameCell(rows: seq<Row>, group: Row -> bool, i: nat)
    requires i < |rows|
    requires rows[i].cluster.None? ==> !IndexKeysMeet(Side(rows, group, true), Side(rows, group, false))
    ensures RatioCell(rows, group, KeyOf(rows[i], i))
         == ArmCell(Side(rows, group, true), Side(rows, group, false), ArmKey(rows, group, i))
  {
    var a, b, r := Side(rows, group, true), Side(rows, group, false), rows[i];
    if r.cluster.Some? {
      NamedMembers(rows, group, true, r.cluster.value);
      NamedMembers(rows, group, false, r.cluster.value);
    } else {
      var j := Rank(rows, group, i);
      RankFindsRow(rows, group, i);
      OwnMembers(rows, i);
      OwnMembers(a, j);
      OwnMembers(b, j);
      assert Init([r]) == [];
      assert Side([r], group, group(r)) == [r] && Side([r], group, !group(r)) == [];
    }
  }

  // --- the two constructions compared ----------------------------------------------------------

  function Translate(rows: seq<Row>, group: Row -> bool, k: Key): Key {
    match k
    case Id(_) => k
    case OwnRow(i) => if i < |rows| then OwnRow(Rank(rows, group, i)) else k
  }

  function TranslatedKeys(rows: seq<Row>, group: Row -> bool): seq<Key> {
    var ks := Keys(rows);
    seq(|ks|, i requires 0 <= i < |ks| => Translate(rows, group, ks[i]))
  }

  lemma RowOfKey(rows: seq<Row>, group: Row -> bool, k: Key) returns (i: nat)
    requires k in Keys(rows)
    ensures i < |rows| && k == KeyOf(rows[i], i) && Translate(rows, group, k) == ArmKey(rows, group, i)
    ensures k.OwnRow? ==> k.index == i && rows[i].cluster.None?
  {
    KeysAre(rows);
    i :| 0 <= i < |rows| && KeyOf(rows[i], i) == k;
  }

  lemma TranslatedAreArmKeys(rows: seq<Row>, group: Row -> bool)
    ensures Elements(TranslatedKeys(rows, group))
         == Elements(Keys(Side(rows, group, true))) + Elements(Keys(Side(rows, group, false)))
  {
    var ks, t := Keys(rows), TranslatedKeys(rows, group);
    var a, b := Side(rows, group, true), Side(rows, group, false);
    KeysAre(rows); KeysAre(a); KeysAre(b);
    hide Keys, Side, Rank;
    forall x | 0 <= x < |t| ensures t[x] in Keys(a) || t[x] in Keys(b) {
      assert ks[x] in ks;
      var i := RowOfKey(rows, group, ks[x]);
      RankFindsRow(rows, group, i);
    }
    forall side: bool, j: nat | j < |Side(rows, group, side)| ensures KeyOf(Side(rows, group, side)[j], j) in t {
      var i := RankReaches(rows, group, side, j);
      var k := KeyOf(rows[i], i);
      assert k in ks;
      var x :| 0 <= x < |ks| && ks[x] == k;
      assert t[x] == ArmKey(rows, group, i);
    }
    forall k | k in Keys(a) ensures k in t {
      var j :| 0 <= j < |a| && KeyOf(a[j], j) == k;
    }
    forall k | k in Keys(b) ensures k in t {
      var j :| 0 <= j < |b| && KeyOf(b[j], j) == k;
    }
  }

  /** Distinct keys stay distinct in the arms exactly while no two index keys meet. */
  lemma TranslatedDistinct(rows: seq<Row>, group: Row -> bool)
    ensures NoDuplicates(TranslatedKeys(rows, group))
            <==> !IndexKeysMeet(Side(rows, group, true), Side(rows, group, false))
  {
    var ks, t := Keys(rows), TranslatedKeys(rows, group);
    var a, b := Side(rows, group, true), Side(rows, group, false);
    KeysAre(rows);
    hide Keys, Side;
    if j :| 0 <= j < |a| && j < |b| && a[j].cluster.None? && b[j].cluster.None? {
      var i := RankReaches(rows, group, true, j);
      var i' := RankReaches(rows, group, false, j);
      assert KeyOf(rows[i], i) in ks && KeyOf(rows[i'], i') in ks;
      var x :| 0 <= x < |ks| && ks[x] == OwnRow(i);
      var y :| 0 <= y < |ks| && ks[y] == OwnRow(i');
      assert t[x] == t[y] && x != y;
    }
    if !NoDuplicates(t) {
      var x, y :| 0 <= x < y < |t| && t[x] == t[y];
      assert ks[x] in ks && ks[y] in ks && ks[x] != ks[y];
      var i := RowOfKey(rows, group, ks[x]);
      var i' := RowOfKey(rows, group, ks[y]);
      if group(rows[i]) == group(rows[i']) {
        RankIncreases(rows, group, if i < i' then i else i', if i < i' then i' else i);
      } else {
        RankFindsRow(rows, group, i);
        RankFindsRow(rows, group, i');
        assert a[Rank(rows, group, i)].cluster.None? && b[Rank(rows, group, i)].cluster.None?;
      }
    }
  }

  lemma {:induction false} DuplicatesShrink(t: seq<Key>)
    ensures |Elements(t)| <= |t|
    ensures |Elements(t)| == |t| <==> NoDuplicates(t)
  {
    if t != [] {
      var rest, k := Init(t), Last(t);
      DuplicatesShrink(rest);
      assert Elements(t) == Elements(rest) + {k};
      if k in rest {
        var i :| 0 <= i < |rest| && rest[i] == k;
        assert t[i] == t[|rest|];
        assert Elements(t) == Elements(rest);
      }
    }
  }

  lemma SameElementsPermute(s: seq<Key>, t: seq<Key>)
    requires NoDuplicates(s) && NoDuplicates(t) && Elements(s) == Elements(t)
    ensures multiset(s) == multiset(t)
  {
    OnceEach(s);
    OnceEach(t);
  }

  lemma {:induction false} OnceEach(s: seq<Key>)
    requires NoDuplicates(s)
    ensures multiset(s) == multiset(Elements(s))
  {
    if s != [] {
      var rest := Init(s);
      OnceEach(rest);
      assert s == rest + [Last(s)];
      assert Elements(s) == Elements(rest) + {Last(s)} && Last(s) !in Elements(rest);
    }
  }

  function Without<T>(t: seq<T>, j: nat): seq<T>
    requires j < |t|
  {
    t[..j] + t[j + 1..]
  }

  lemma WithoutOne<T>(t: seq<T>, j: nat)
    requires j < |t|
    ensures multiset(t) == multiset(Without(t, j)) + multiset{t[j]}
    ensures multiset(Without(t, j)) == multiset(t) - multiset{t[j]}
  {
    assert t == t[..j] + [t[j]] + t[j + 1..];
  }

  /** Resampling does not see the order in which the cells are listed. */
  lemma {:induction false} CellsPermute(a: seq<Row>, b: seq<Row>, s: seq<Key>, t: seq<Key>)
    requires multiset(s) == multiset(t)
    ensures multiset(ArmCells(a, b, s)) == multiset(ArmCells(a, b, t))
    decreases |s|
  {
    hide ArmCell;
    if s == [] {
      assert |t| == |multiset(t)| == 0;
    } else {
      var n := |s| - 1;
      assert s[n] in multiset(t);
      var j :| 0 <= j < |t| && t[j] == s[n];
      WithoutOne(s, n);
      WithoutOne(t, j);
      CellsPermute(a, b, Without(s, n), Without(t, j));
      assert ArmCells(a, b, Without(s, n)) == Without(ArmCells(a, b, s), n);
      assert ArmCells(a, b, Without(t, j)) == Without(ArmCells(a, b, t), j);
      hide Without;
      WithoutOne(ArmCells(a, b, s), n);
      WithoutOne(ArmCells(a, b, t), j);
    }
  }

  /**
   * Splitting one population by a predicate and passing the two sides as arms resamples the same multiset of cells,
   * and counts the same clusters, exactly when no index key of one arm meets one of the other.
   */
  lemma ArmsRefineSplit(rows: seq<Row>, group: Row -> bool, keys: seq<Key>)
    requires Union(keys, Side(rows, group, true), Side(rows, group, false))
    ensures var a, b := Side(rows, group, true), Side(rows, group, false);
      && (multiset(ArmCells(a, b, keys)) == multiset(RatioCells(rows, group)) <==> !IndexKeysMeet(a, b))
      && (|keys| == |Keys(rows)| <==> !IndexKeysMeet(a, b))
      && |keys| <= |Keys(rows)|
  {
    var ks, t := Keys(rows), TranslatedKeys(rows, group);
    var a, b := Side(rows, group, true), Side(rows, group, false);
    TranslatedAreArmKeys(rows, group);
    TranslatedDistinct(rows, group);
    DuplicatesShrink(t);
    DuplicatesShrink(keys);
    assert |t| == |ks|;
    hide Keys, Side, NoDuplicates, RatioCell, ArmCell, Translate;
    if IndexKeysMeet(a, b) {
      assert |multiset(ArmCells(a, b, keys))| == |keys| < |ks| == |multiset(RatioCells(rows, group))|;
    } else {
      forall x | 0 <= x < |ks| ensures RatioCells(rows, group)[x] == ArmCells(a, b, t)[x] {
        assert ks[x] in ks;
        var i := RowOfKey(rows, group, ks[x]);
        SameCell(rows, group, i);
      }
      assert RatioCells(rows, group) == ArmCells(a, b, t);
      SameElementsPermute(t, keys);
      CellsPermute(a, b, t, keys);
    }
  }

  /** Rows that all carry a cluster id never meet, so the two constructions agree on them. */
  lemma NamedRowsAgree(rows: seq<Row>, group: Row -> bool, keys: seq<Key>)
    requires forall r :: r in rows ==> r.cluster.Some?
    requires Union(keys, Side(rows, group, true), Side(rows, group, false))
    ensures multiset(ArmCells(Side(rows, group, true), Side(rows, group, false), keys))
            == multiset(RatioCells(rows, group))
  {
    SideRows(rows, group, true);
    ArmsRefineSplit(rows, group, keys);
  }

  lemma {:induction false} SideRows(rows: seq<Row>, group: Row -> bool, side: bool)
    ensures forall r :: r in Side(rows, group, side) ==> r in rows
  {
    if rows != [] {
      SideRows(Init(rows), group, side);
    }
  }

  /** One row without an id on each side is enough to merge two clusters into one. */
  lemma UnnamedRowsMerge(a: Row, b: Row, group: Row -> bool)
    requires a.cluster.None? && b.cluster.None? && group(a) && !group(b)
    ensures Keys([a, b]) == [OwnRow(0), OwnRow(1)]
    ensures Union([OwnRow(0)], Side([a, b], group, true), Side([a, b], group, false))
    ensures IndexKeysMeet(Side([a, b], group, true), Side([a, b], group, false))
  {
    assert Init([a, b]) == [a] && Init([a]) == [] && Init([b]) == [];
    assert Side([a], group, true) == [a] && Side([a], group, false) == [];
    assert [a] + [] == [a] && [] + [b] == [b];
    assert Side([a, b], group, true) == [a] && Side([a, b], group, false) == [b];
    SingleKey(a);
    SingleKey(b);
    assert [a][0].cluster.None? && [b][0].cluster.None?;
  }

  lemma SingleKey(r: Row)
    requires r.cluster.None?
    ensures Keys([r]) == [OwnRow(0)]
  {
    assert Init([r]) == [] && Keys([]) == [];
  }
}
