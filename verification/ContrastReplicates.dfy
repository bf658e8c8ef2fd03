// The contrast itself: point estimate and bootstrap replicates over cells, with log(R_A / R_B) read as R_A / R_B.
module ContrastReplicates {
  import opened Prelude
  import opened Clusters
  import opened Contrast
  import Bootstrap

  const ZERO := Cell(0, 0.0, 0, 0.0)

  function Add(x: Cell, y: Cell): Cell {
    Cell(x.obsA + y.obsA, x.expA + y.expA, x.obsB + y.obsB, x.expB + y.expB)
  }

  function TotalOf(cells: seq<Cell>): Cell {
    if cells == [] then ZERO else Add(TotalOf(Init(cells)), Last(cells))
  }

  /** Observed over expected of A against B, each count raised by c; None is NaN. */
  function RatioOf(t: Cell, c: real): Option<real> {
    if t.expA <= 0.0 || t.expB <= 0.0 then None
    else
      var ra, rb := (t.obsA as real + c) / t.expA, (t.obsB as real + c) / t.expB;
      if ra <= 0.0 || rb <= 0.0 then None else Some(ra / rb)
  }

  const HALDANE_C := 0.5

  predicate Fit(draws: seq<seq<nat>>, k: nat) {
    forall i :: 0 <= i < |draws| ==> Bootstrap.IsDraw(draws[i], k)
  }

  function Drawn(cells: seq<Cell>, draw: seq<nat>): seq<Cell>
    requires forall i :: 0 <= i < |draw| ==> draw[i] < |cells|
  {
    seq(|draw|, i requires 0 <= i < |draw| => cells[draw[i]])
  }

  /** The valid replicates, in the order they were drawn. */
  function Replicates(cells: seq<Cell>, draws: seq<seq<nat>>): seq<real>
    requires Fit(draws, |cells|)
  {
    if draws == [] then []
    else
      assert Bootstrap.IsDraw(Last(draws), |cells|);
      Replicates(cells, Init(draws)) +
      match RatioOf(TotalOf(Drawn(cells, Last(draws))), HALDANE_C) case None => [] case Some(v) => [v]
  }

  /** The replicate loop, with the generator's indices given as `draws`. */
  method Resample(cells: seq<Cell>, draws: seq<seq<nat>>) returns (reps: seq<real>)
    requires Fit(draws, |cells|)
    ensures reps == Replicates(cells, draws)
  {
    reps := [];
    for n := 0 to |draws|
      invariant Fit(draws[..n], |cells|) && reps == Replicates(cells, draws[..n])
    {
      assert Bootstrap.IsDraw(draws[n], |cells|);
      assert Init(draws[..n + 1]) == draws[..n] && Last(draws[..n + 1]) == draws[n];
      var t := ZERO;
      for i := 0 to |draws[n]|
        invariant t == TotalOf(Drawn(cells, draws[n])[..i])
      {
        var drawn := Drawn(cells, draws[n]);
        assert Init(drawn[..i + 1]) == drawn[..i] && Last(drawn[..i + 1]) == drawn[i];
        t := Add(t, cells[draws[n][i]]);
      }
      assert Drawn(cells, draws[n])[..|draws[n]|] == Drawn(cells, draws[n]);
      match RatioOf(t, HALDANE_C) {
        case None =>
        case Some(v) => reps := reps + [v];
      }
    }
    assert draws[..|draws|] == draws;
  }

  // --- what a replicate is ---------------------------------------------------------------------

  /** The contrast is defined exactly when all four corrected figures are positive, and then it is the quotient. */
  lemma ContrastIs(t: Cell, c: real)
    ensures RatioOf(t, c).Some?
            <==> t.expA > 0.0 && t.expB > 0.0 && t.obsA as real + c > 0.0 && t.obsB as real + c > 0.0
    ensures RatioOf(t, c).Some?
            ==> RatioOf(t, c).value * ((t.obsB as real + c) * t.expA) == (t.obsA as real + c) * t.expB
  {
    if t.expA > 0.0 && t.expB > 0.0 {
      var (oa, ob) := (t.obsA as real + c, t.obsB as real + c);
      QuotientSign(oa, t.expA);
      QuotientSign(ob, t.expB);
      if oa > 0.0 && ob > 0.0 { CrossMultiplied(oa, t.expA, ob, t.expB); }
    }
  }

  lemma QuotientSign(a: real, b: real)
    requires b > 0.0
    ensures a / b > 0.0 <==> a > 0.0
  {
    var q := a / b;
    assert q * b == a;
  }

  lemma CrossMultiplied(oa: real, ea: real, ob: real, eb: real)
    requires oa > 0.0 && ea > 0.0 && ob > 0.0 && eb > 0.0 && oa / ea > 0.0 && ob / eb > 0.0
    ensures oa / ea / (ob / eb) * (ob * ea) == oa * eb
  {
    var ra, rb := oa / ea, ob / eb;
    var x := ra / rb;
    assert ra * ea == oa && rb * eb == ob && x * rb == ra;
    calc {
      x * (ob * ea);
      x * ((rb * eb) * ea);
      (x * rb) * (ea * eb);
      (ra * ea) * eb;
      oa * eb;
    }
  }

  /** A total adds its cells up, figure by figure. */
  lemma {:induction false} TotalsAdd(a: seq<Cell>, b: seq<Cell>)
    ensures TotalOf(a + b) == Add(TotalOf(a), TotalOf(b)) && TotalOf([]) == Cell(0, 0.0, 0, 0.0)
    ensures forall t: Cell :: TotalOf([t]) == t
  {
    forall t: Cell ensures TotalOf([t]) == t {
      assert Init([t]) == [];
    }
    if b == [] {
      assert a + b == a;
    } else {
      TotalsAdd(a, Init(b));
      assert Init(a + b) == a + Init(b);
    }
  }

  /** A draw adds up the cells it names, each as often as it names it. */
  lemma DrawsAdd(cells: seq<Cell>, draw: seq<nat>, i: nat)
    requires (forall j :: 0 <= j < |draw| ==> draw[j] < |cells|) && i < |cells|
    ensures TotalOf(Drawn(cells, draw + [i])) == Add(TotalOf(Drawn(cells, draw)), cells[i])
    ensures TotalOf(Drawn(cells, [])) == Cell(0, 0.0, 0, 0.0)
  {
    assert Drawn(cells, draw + [i]) == Drawn(cells, draw) + [cells[i]];
    TotalsAdd(Drawn(cells, draw), [cells[i]]);
  }

  /**
   * Drawing each cell once gives the point estimate's contrast, corrected by one half; draws give replicates in turn.
   */
  lemma {:induction false} ReplicatesAre(cells: seq<Cell>, a: seq<seq<nat>>, b: seq<seq<nat>>)
    requires Fit(a, |cells|) && Fit(b, |cells|)
    ensures Fit(a + b, |cells|) && Replicates(cells, a + b) == Replicates(cells, a) + Replicates(cells, b)
    ensures var once := seq(|cells|, i requires 0 <= i < |cells| => i);
            Fit([once], |cells|)
            && Replicates(cells, [once]) == match RatioOf(TotalOf(cells), 0.5) case None => [] case Some(x) => [x]
  {
    hide RatioOf, TotalOf;
    var once: seq<nat> := seq(|cells|, i requires 0 <= i < |cells| => i);
    assert Bootstrap.IsDraw(once, |cells|);
    assert Drawn(cells, once) == cells && Init([once]) == [] && Last([once]) == once;
    if b == [] {
      assert a + b == a;
    } else {
      assert Bootstrap.IsDraw(Last(b), |cells|);
      ReplicatesAre(cells, a, Init(b));
      assert Init(a + b) == a + Init(b);
    }
  }

  // --- cells conserve the counts, so both point estimates are the contrast of the totals --------

  /** Changing the cell of one key changes the total by as much. */
  lemma {:induction false} TotalChange(keys: seq<Key>, cells: seq<Cell>, cells': seq<Cell>, k: Key, d: Cell)
    requires |cells| == |cells'| == |keys| && NoDuplicates(keys)
    requires forall i :: 0 <= i < |keys| ==> cells'[i] == if keys[i] == k then Add(cells[i], d) else cells[i]
    ensures TotalOf(cells') == if k in keys then Add(TotalOf(cells), d) else TotalOf(cells)
  {
    if keys != [] {
      TotalChange(Init(keys), Init(cells), Init(cells'), k, d);
      assert keys == Init(keys) + [Last(keys)];
      assert Last(keys) !in Init(keys);
      assert Last(cells') == if Last(keys) == k then Add(Last(cells), d) else Last(cells);
    }
  }

  /** What one row adds to the A half, or to the B half. */
  function InA(r: Row): Cell {
    Cell(if r.hit then 1 else 0, r.expected, 0, 0.0)
  }

  function InB(r: Row): Cell {
    Cell(0, 0.0, if r.hit then 1 else 0, r.expected)
  }

  lemma MembersNext(rows: seq<Row>, k: Key)
    requires rows != []
    ensures Members(rows, k)
            == if KeyOf(Last(rows), |rows| - 1) == k then Members(Init(rows), k) + [Last(rows)]
               else Members(Init(rows), k)
    ensures KeyOf(Last(rows), |rows| - 1) in Keys(rows)
  {
    KeysAre(rows);
  }

  lemma SumsNext(s: seq<Row>, r: Row)
    ensures Observed(s + [r]) == Observed(s) + (if r.hit then 1 else 0) && Expected(s + [r]) == Expected(s) + r.expected
  {
    assert Init(s + [r]) == s;
  }

  ghost predicate Covers(keys: seq<Key>, rows: seq<Row>) {
    NoDuplicates(keys) && forall k :: k in Keys(rows) ==> k in keys
  }

  lemma CoversInit(keys: seq<Key>, rows: seq<Row>)
    requires rows != [] && Covers(keys, rows)
    ensures Covers(keys, Init(rows)) && KeyOf(Last(rows), |rows| - 1) in keys
  {
    KeysAre(rows);
    KeysAre(Init(rows));
    forall k | k in Keys(Init(rows)) ensures k in Keys(rows) {
      MembersNext(rows, k);
    }
    MembersNext(rows, KeyOf(Last(rows), |rows| - 1));
  }

  lemma {:induction false} ZerosTotal(cells: seq<Cell>)
    requires forall i :: 0 <= i < |cells| ==> cells[i] == ZERO
    ensures TotalOf(cells) == ZERO
  {
    hide TotalOf, Add;
    TotalStep(cells);
    ZeroAdds(ZERO, ZERO);
    if cells != [] {
      assert Last(cells) == cells[|cells| - 1];
      ZerosTotal(Init(cells));
    }
  }

  lemma ZeroAdds(x: Cell, zero: Cell)
    requires zero.obsA == 0 == zero.obsB && zero.expA == 0.0 == zero.expB
    ensures Add(x, zero) == x
  {
  }

  lemma TotalStep(cells: seq<Cell>)
    ensures TotalOf(cells) == if cells == [] then ZERO else Add(TotalOf(Init(cells)), Last(cells))
  {
  }

  lemma NoCells(keys: seq<Key>)
    ensures TotalOf(ArmCells([], [], keys)) == ZERO
  {
    hide TotalOf;
    ZerosTotal(ArmCells([], [], keys));
  }

  /** Two arms over the union of their keys: nothing is lost and nothing is counted twice, even where keys meet. */
  lemma {:induction false} ArmCellsConserve(a: seq<Row>, b: seq<Row>, keys: seq<Key>)
    requires Covers(keys, a) && Covers(keys, b)
    ensures TotalOf(ArmCells(a, b, keys)) == CellOf(a, b)
    decreases |a| + |b|
  {
    hide Keys, Members, TotalOf, Observed, Expected;
    if a != [] {
      CoversInit(keys, a);
      ArmCellsConserve(Init(a), b, keys);
      ArmRowA(a, b, keys);
      assert a == Init(a) + [Last(a)];
      SumsNext(Init(a), Last(a));
    } else if b != [] {
      CoversInit(keys, b);
      ArmCellsConserve(a, Init(b), keys);
      ArmRowB(a, b, keys);
      assert b == Init(b) + [Last(b)];
      SumsNext(Init(b), Last(b));
    } else {
      NoCells(keys);
      NoRows();
    }
  }

  lemma NoRows()
    ensures Observed([]) == 0 && Expected([]) == 0.0
  {
  }

  lemma ArmRowA(a: seq<Row>, b: seq<Row>, keys: seq<Key>)
    requires a != [] && NoDuplicates(keys) && KeyOf(Last(a), |a| - 1) in keys
    ensures TotalOf(ArmCells(a, b, keys)) == Add(TotalOf(ArmCells(Init(a), b, keys)), InA(Last(a)))
  {
    hide TotalOf, Keys, Members, Observed, Expected;
    var k0 := KeyOf(Last(a), |a| - 1);
    forall k
      ensures ArmCell(a, b, k) == if k == k0 then Add(ArmCell(Init(a), b, k), InA(Last(a))) else ArmCell(Init(a), b, k)
    {
      MembersNext(a, k);
      SumsNext(Members(Init(a), k), Last(a));
    }
    TotalChange(keys, ArmCells(Init(a), b, keys), ArmCells(a, b, keys), k0, InA(Last(a)));
  }

  lemma ArmRowB(a: seq<Row>, b: seq<Row>, keys: seq<Key>)
    requires b != [] && NoDuplicates(keys) && KeyOf(Last(b), |b| - 1) in keys
    ensures TotalOf(ArmCells(a, b, keys)) == Add(TotalOf(ArmCells(a, Init(b), keys)), InB(Last(b)))
  {
    hide TotalOf, Keys, Members, Observed, Expected;
    var k0 := KeyOf(Last(b), |b| - 1);
    forall k
      ensures ArmCell(a, b, k) == if k == k0 then Add(ArmCell(a, Init(b), k), InB(Last(b))) else ArmCell(a, Init(b), k)
    {
      MembersNext(b, k);
      SumsNext(Members(Init(b), k), Last(b));
    }
    TotalChange(keys, ArmCells(a, Init(b), keys), ArmCells(a, b, keys), k0, InB(Last(b)));
  }

  function RatioCellsOver(rows: seq<Row>, group: Row -> bool, keys: seq<Key>): seq<Cell> {
    seq(|keys|, i requires 0 <= i < |keys| => RatioCell(rows, group, keys[i]))
  }

  lemma SideNext(rows: seq<Row>, group: Row -> bool, side: bool, r: Row)
    ensures Side(rows + [r], group, side)
            == if group(r) == side then Side(rows, group, side) + [r] else Side(rows, group, side)
  {
    assert Init(rows + [r]) == rows;
  }

  lemma CellNext(s: seq<Row>, group: Row -> bool, r: Row)
    ensures CellOf(Side(s + [r], group, true), Side(s + [r], group, false))
            == Add(CellOf(Side(s, group, true), Side(s, group, false)), if group(r) then InA(r) else InB(r))
  {
    hide Side, Observed, Expected;
    SideNext(s, group, true, r);
    SideNext(s, group, false, r);
    SumsNext(Side(s, group, true), r);
    SumsNext(Side(s, group, false), r);
  }

  lemma NoRatioCells(group: Row -> bool, keys: seq<Key>)
    ensures TotalOf(RatioCellsOver([], group, keys)) == ZERO
  {
    hide TotalOf;
    ZerosTotal(RatioCellsOver([], group, keys));
  }

  lemma NothingOnSide(group: Row -> bool)
    ensures CellOf(Side([], group, true), Side([], group, false)) == ZERO
  {
  }

  lemma RatioRow(rows: seq<Row>, group: Row -> bool, keys: seq<Key>)
    requires rows != [] && NoDuplicates(keys) && KeyOf(Last(rows), |rows| - 1) in keys
    ensures TotalOf(RatioCellsOver(rows, group, keys))
            == Add(TotalOf(RatioCellsOver(Init(rows), group, keys)),
                   if group(Last(rows)) then InA(Last(rows)) else InB(Last(rows)))
  {
    hide TotalOf, Keys, Members, Observed, Expected, Side, CellOf;
    var r, k0 := Last(rows), KeyOf(Last(rows), |rows| - 1);
    var d := if group(r) then InA(r) else InB(r);
    forall k
      ensures RatioCell(rows, group, k)
              == if k == k0 then Add(RatioCell(Init(rows), group, k), d) else RatioCell(Init(rows), group, k)
    {
      MembersNext(rows, k);
      CellNext(Members(Init(rows), k), group, r);
    }
    TotalChange(keys, RatioCellsOver(Init(rows), group, keys), RatioCellsOver(rows, group, keys), k0, d);
  }

  lemma {:induction false} RatioCellsConserve(rows: seq<Row>, group: Row -> bool, keys: seq<Key>)
    requires Covers(keys, rows)
    ensures TotalOf(RatioCellsOver(rows, group, keys)) == CellOf(Side(rows, group, true), Side(rows, group, false))
  {
    hide Keys, Members, TotalOf, Observed, Expected, Side, CellOf;
    if rows == [] {
      NoRatioCells(group, keys);
      NothingOnSide(group);
    } else {
      CoversInit(keys, rows);
      RatioCellsConserve(Init(rows), group, keys);
      RatioRow(rows, group, keys);
      assert rows == Init(rows) + [Last(rows)];
      CellNext(Init(rows), group, Last(rows));
    }
  }

  /** Both functions' cells add up to the counts their point estimate is computed from, whether or not keys meet. */
  lemma PointEstimatesAgree(rows: seq<Row>, group: Row -> bool, keys: seq<Key>)
    requires Union(keys, Side(rows, group, true), Side(rows, group, false))
    ensures var a, b := Side(rows, group, true), Side(rows, group, false);
            TotalOf(ArmCells(a, b, keys)) == TotalOf(RatioCells(rows, group)) == CellOf(a, b)
  {
    hide Side, TotalOf, Keys, CellOf;
    var a, b := Side(rows, group, true), Side(rows, group, false);
    KeysAre(rows);
    assert forall k :: k in Elements(keys) <==> k in keys;
    assert forall k :: k in Keys(a) ==> k in Elements(Keys(a));
    assert forall k :: k in Keys(b) ==> k in Elements(Keys(b));
    ArmCellsConserve(a, b, keys);
    RatioCellsConserve(rows, group, Keys(rows));
    assert RatioCells(rows, group) == RatioCellsOver(rows, group, Keys(rows));
  }

  // --- resampling does not depend on how the cells are listed -----------------------------------

  /** pi sends every place of s to a place of t with the same cell, and rho undoes it. */
  ghost predicate Matches(pi: seq<nat>, rho: seq<nat>, s: seq<Cell>, t: seq<Cell>) {
    && |pi| == |rho| == |s| == |t|
    && (forall i :: 0 <= i < |pi| ==> pi[i] < |t| && t[pi[i]] == s[i] && rho[pi[i]] == i)
    && (forall j :: 0 <= j < |rho| ==> rho[j] < |s| && pi[rho[j]] == j)
  }

  lemma MatchLast(s: seq<Cell>, t: seq<Cell>, j: nat, pi': seq<nat>, rho': seq<nat>)
    returns (pi: seq<nat>, rho: seq<nat>)
    requires s != [] && j < |t| && t[j] == Last(s)
    requires Matches(pi', rho', Init(s), Without(t, j))
    ensures Matches(pi, rho, s, t)
  {
    var n := |s| - 1;
    pi := seq(n + 1, i requires 0 <= i < n + 1 => if i == n then j else if pi'[i] < j then pi'[i] else pi'[i] + 1);
    rho := seq(n + 1, k requires 0 <= k < n + 1 => if k < j then rho'[k] else if k == j then n else rho'[k - 1]);
    forall i | 0 <= i < n ensures pi[i] < |t| && t[pi[i]] == s[i] && rho[pi[i]] == i {
      assert Without(t, j)[pi'[i]] == t[pi[i]];
    }
    forall k | 0 <= k < |t| && k != j ensures rho[k] < |s| && pi[rho[k]] == k {
      assert pi'[rho'[if k < j then k else k - 1]] == if k < j then k else k - 1;
    }
  }

  /** Equal multisets are matched by one permutation. */
  lemma {:induction false} Matching(s: seq<Cell>, t: seq<Cell>) returns (pi: seq<nat>, rho: seq<nat>)
    requires multiset(s) == multiset(t)
    ensures Matches(pi, rho, s, t)
  {
    hide Without, Matches;
    assert |multiset(s)| == |s| && |multiset(t)| == |t|;
    if s == [] {
      NothingMatches();
      return [], [];
    }
    var j := PlaceOfLast(s, t);
    var pi', rho' := Matching(Init(s), Without(t, j));
    pi, rho := MatchLast(s, t, j, pi', rho');
  }

  lemma NothingMatches()
    ensures Matches([], [], [], [])
  {
  }

  lemma PlaceOfLast(s: seq<Cell>, t: seq<Cell>) returns (j: nat)
    requires s != [] && multiset(s) == multiset(t)
    ensures j < |t| && t[j] == Last(s) && multiset(Init(s)) == multiset(Without(t, j))
  {
    hide Without;
    assert s == Init(s) + [Last(s)];
    assert Last(s) in multiset(t);
    j :| 0 <= j < |t| && t[j] == Last(s);
    WithoutOne(t, j);
  }

  /** A draw from s, read through the permutation as a draw from t. */
  function Renamed(draw: seq<nat>, pi: seq<nat>): seq<nat>
    requires Bootstrap.IsDraw(draw, |pi|)
  {
    seq(|draw|, i requires 0 <= i < |draw| => pi[draw[i]])
  }

  function AllRenamed(draws: seq<seq<nat>>, pi: seq<nat>): seq<seq<nat>>
    requires Fit(draws, |pi|)
  {
    seq(|draws|, n requires 0 <= n < |draws| => assert Bootstrap.IsDraw(draws[n], |pi|); Renamed(draws[n], pi))
  }

  lemma RenamedDraw(s: seq<Cell>, t: seq<Cell>, pi: seq<nat>, rho: seq<nat>, draw: seq<nat>)
    requires Matches(pi, rho, s, t) && Bootstrap.IsDraw(draw, |s|)
    ensures Bootstrap.IsDraw(Renamed(draw, pi), |t|) && Drawn(t, Renamed(draw, pi)) == Drawn(s, draw)
    ensures Renamed(Renamed(draw, pi), rho) == draw
  {
  }

  lemma {:induction false} RenamedReplicates(s: seq<Cell>, t: seq<Cell>, pi: seq<nat>, rho: seq<nat>,
                                             draws: seq<seq<nat>>)
    requires Matches(pi, rho, s, t) && Fit(draws, |s|)
    ensures Fit(AllRenamed(draws, pi), |t|) && AllRenamed(AllRenamed(draws, pi), rho) == draws
    ensures Replicates(t, AllRenamed(draws, pi)) == Replicates(s, draws)
  {
    hide RatioOf, TotalOf, Renamed, Drawn;
    forall n | 0 <= n < |draws|
      ensures Bootstrap.IsDraw(AllRenamed(draws, pi)[n], |t|)
      ensures Renamed(AllRenamed(draws, pi)[n], rho) == draws[n]
    {
      assert Bootstrap.IsDraw(draws[n], |s|);
      RenamedDraw(s, t, pi, rho, draws[n]);
    }
    if draws != [] {
      RenamedReplicates(s, t, pi, rho, Init(draws));
      assert Init(AllRenamed(draws, pi)) == AllRenamed(Init(draws), pi);
      assert Bootstrap.IsDraw(Last(draws), |s|);
      RenamedDraw(s, t, pi, rho, Last(draws));
    }
  }

  lemma Backwards(pi: seq<nat>, rho: seq<nat>, s: seq<Cell>, t: seq<Cell>)
    requires Matches(pi, rho, s, t)
    ensures Matches(rho, pi, t, s)
  {
  }

  /**
   * Cells listed in another order: one permutation renames the generator's indices so that every sequence of draws
   * gives the same replicates. It is undone by rho, so equally many draws give each outcome.
   */
  lemma SameReplicates(s: seq<Cell>, t: seq<Cell>) returns (pi: seq<nat>, rho: seq<nat>)
    requires multiset(s) == multiset(t)
    ensures Matches(pi, rho, s, t)
    ensures forall draws :: Fit(draws, |s|) ==>
              Fit(AllRenamed(draws, pi), |t|) && AllRenamed(AllRenamed(draws, pi), rho) == draws
              && Replicates(t, AllRenamed(draws, pi)) == Replicates(s, draws)
    ensures forall draws :: Fit(draws, |t|) ==>
              Fit(AllRenamed(draws, rho), |s|) && AllRenamed(AllRenamed(draws, rho), pi) == draws
  {
    pi, rho := Matching(s, t);
    Backwards(pi, rho, s, t);
    assert |pi| == |rho| == |s| == |t|;
    hide Replicates, Matches, Renamed, AllRenamed;
    forall draws | Fit(draws, |s|)
      ensures Fit(AllRenamed(draws, pi), |t|) && AllRenamed(AllRenamed(draws, pi), rho) == draws
      ensures Replicates(t, AllRenamed(draws, pi)) == Replicates(s, draws)
    {
      RenamedReplicates(s, t, pi, rho, draws);
    }
    forall draws | Fit(draws, |t|)
      ensures Fit(AllRenamed(draws, rho), |s|) && AllRenamed(AllRenamed(draws, rho), pi) == draws
    {
      RenamedReplicates(t, s, rho, pi, draws);
    }
  }

  /** The two contrast functions bootstrap alike wherever no index keys meet: one renaming, whatever is drawn. */
  lemma SplitAndArmsReplicateAlike(rows: seq<Row>, group: Row -> bool, keys: seq<Key>)
    returns (pi: seq<nat>, rho: seq<nat>)
    requires Union(keys, Side(rows, group, true), Side(rows, group, false))
    requires !IndexKeysMeet(Side(rows, group, true), Side(rows, group, false))
    ensures var s, t := RatioCells(rows, group), ArmCells(Side(rows, group, true), Side(rows, group, false), keys);
      && Matches(pi, rho, s, t)
      && forall draws :: Fit(draws, |s|) ==> Replicates(t, AllRenamed(draws, pi)) == Replicates(s, draws)
  {
    ArmsRefineSplit(rows, group, keys);
    hide Side, Replicates, Renamed, AllRenamed;
    pi, rho := SameReplicates(RatioCells(rows, group),
                              ArmCells(Side(rows, group, true), Side(rows, group, false), keys));
  }

  function Swapped(t: Cell): Cell {
    Cell(t.obsB, t.expB, t.obsA, t.expA)
  }

  /** Exchanging the arms inverts the ratio, so the log contrast changes its sign and nothing else. */
  lemma SwappingArmsInverts(t: Cell, c: real)
    ensures RatioOf(Swapped(t), c).Some? <==> RatioOf(t, c).Some?
    ensures RatioOf(t, c).Some?
            ==> RatioOf(t, c).value > 0.0 && RatioOf(Swapped(t), c).value * RatioOf(t, c).value == 1.0
  {
    if RatioOf(t, c).Some? {
      Inverse((t.obsA as real + c) / t.expA, (t.obsB as real + c) / t.expB);
    }
  }

  lemma Inverse(x: real, y: real)
    requires x > 0.0 && y > 0.0
    ensures x / y > 0.0 && (y / x) * (x / y) == 1.0
  {
    var a, b := x / y, y / x;
    assert a * y == x && b * x == y;
    calc {
      (b * a) * y;
      b * (a * y);
      b * x;
      y;
    }
    Cancel(b * a, y);
  }

  lemma Cancel(p: real, y: real)
    requires p * y == y && y > 0.0
    ensures p == 1.0
  {
    assert (p - 1.0) * y == 0.0;
  }
}
