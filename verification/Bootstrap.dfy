// Interpolated percentiles, per-cluster subtotals, and the cluster bootstrap of a ratio of sums.
module Bootstrap {
  import opened Prelude
  import opened Sorting
  import opened Reals
  import opened Clusters
  import opened FailedClusters

  predicate Sorted(s: seq<real>) {
    forall i, j :: 0 <= i <= j < |s| ==> s[i] <= s[j]
  }

  function Same(x: real): real {
    x
  }

  /** Value at a fractional position of the sorted data. */
  function Interpolate(s: seq<real>, pos: real): real
    requires s != [] && 0.0 <= pos <= (|s| - 1) as real
  {
    var lo := pos.Floor;
    var hi := if lo + 1 < |s| - 1 then lo + 1 else |s| - 1;
    Between(s[lo], s[hi], pos - lo as real)
  }

  /** The given part of the way from a to b. */
  function Between(a: real, b: real, part: real): real {
    a * (1.0 - part) + b * part
  }

  /** Where the q-th part of a span of the given length ends. */
  function Part(q: real, length: real): (p: real)
    requires 0.0 <= q <= 1.0 && 0.0 <= length
    ensures 0.0 <= p <= length
  {
    q * length
  }

  lemma PartMonotone(q: real, q': real, length: real)
    requires 0.0 <= q <= q' <= 1.0 && 0.0 <= length
    ensures Part(q, length) <= Part(q', length)
  {
  }

  /** `_percentile` of an already sorted sequence; None stands for NaN. */
  function Percentile(s: seq<real>, q: real): Option<real>
    requires 0.0 <= q <= 1.0
  {
    if s == [] then None
    else if |s| == 1 then Some(s[0])
    else Some(Interpolate(s, Part(q, (|s| - 1) as real)))
  }

  /** An interpolated value lies between the two neighbours of its position. */
  lemma InterpolateBetween(s: seq<real>, pos: real)
    requires Sorted(s) && s != [] && 0.0 <= pos <= (|s| - 1) as real
    ensures var lo := pos.Floor;
            && 0 <= lo < |s| && s[lo] <= Interpolate(s, pos)
            && (lo + 1 < |s| ==> Interpolate(s, pos) <= s[lo + 1])
            && (lo + 1 == |s| ==> Interpolate(s, pos) == s[lo])
  {
    var lo := pos.Floor;
    var frac := pos - lo as real;
    if lo + 1 < |s| {
      Mix(1.0 - frac, frac, s[lo], s[lo + 1], s[lo], s[lo + 1]);
    } else {
      Mix(1.0 - frac, frac, s[lo], s[lo], s[lo], s[lo]);
    }
  }

  lemma InterpolateMonotone(s: seq<real>, pos: real, pos': real)
    requires Sorted(s) && s != [] && 0.0 <= pos <= pos' <= (|s| - 1) as real
    ensures Interpolate(s, pos) <= Interpolate(s, pos')
  {
    var lo, lo' := pos.Floor, pos'.Floor;
    if lo == lo' {
      if lo + 1 < |s| {
        Shift(pos - lo as real, pos' - lo as real, s[lo + 1], s[lo]);
      }
    } else {
      InterpolateBetween(s, pos);
      InterpolateBetween(s, pos');
      assert s[lo + 1] <= s[lo'];
    }
  }

  /** Percentiles stay inside the data and never decrease in q. */
  lemma PercentileMonotone(s: seq<real>, q: real, q': real)
    requires s != [] && Sorted(s) && 0.0 <= q <= q' <= 1.0
    ensures Percentile(s, q).Some? && Percentile(s, q').Some?
    ensures s[0] <= Percentile(s, q).value <= Percentile(s, q').value <= Last(s)
  {
    if |s| > 1 {
      hide Part;
      var pos, pos' := Part(q, (|s| - 1) as real), Part(q', (|s| - 1) as real);
      PartMonotone(q, q', (|s| - 1) as real);
      InterpolateMonotone(s, pos, pos');
      InterpolateBetween(s, pos);
      InterpolateBetween(s, pos');
      hide Interpolate;
      assert s[0] <= s[pos.Floor];
      assert pos'.Floor + 1 < |s| ==> s[pos'.Floor + 1] <= Last(s);
    }
  }

  /** Between neighbours it runs linearly: at position q x (n - 1) = k + f it is f of the way from s[k] to s[k + 1]. */
  lemma PercentileAt(s: seq<real>, q: real, k: nat, f: real)
    requires k + 1 < |s| && 0.0 <= f <= 1.0 && 0.0 <= q <= 1.0 && q * (|s| - 1) as real == k as real + f
    ensures Percentile(s, q) == Some(s[k] + f * (s[k + 1] - s[k]))
  {
    InterpolateAt(s, k, f);
    hide Interpolate;
  }

  lemma InterpolateAt(s: seq<real>, k: nat, f: real)
    requires k + 1 < |s| && 0.0 <= f <= 1.0
    ensures Interpolate(s, k as real + f) == s[k] + f * (s[k + 1] - s[k])
  {
    hide Between;
    var pos := k as real + f;
    PartIs(s[k], s[k + 1], f);
    if f < 1.0 {
      assert pos.Floor == k && pos - k as real == f;
    } else {
      assert pos.Floor == k + 1 && pos - (k + 1) as real == 0.0;
      PartIs(s[k + 1], s[if k + 2 < |s| - 1 then k + 2 else |s| - 1], 0.0);
    }
  }

  lemma PartIs(a: real, b: real, part: real)
    ensures Between(a, b, part) == a + part * (b - a)
    ensures part == 0.0 ==> Between(a, b, part) == a
    ensures part == 1.0 ==> Between(a, b, part) == b
  {
  }

  // --- per-cluster subtotals ---------------------------------------------------------------------

  type Pair = (real, real)

  function SumOf(rows: seq<Row>, f: Row -> real): real {
    if rows == [] then 0.0 else SumOf(Init(rows), f) + f(Last(rows))
  }

  function Subtotal(rows: seq<Row>, k: Key, num: Row -> real, den: Row -> real): Pair {
    (SumOf(Members(rows, k), num), SumOf(Members(rows, k), den))
  }

  function Subtotals(rows: seq<Row>, ks: seq<Key>, num: Row -> real, den: Row -> real): seq<Pair> {
    if ks == [] then [] else Subtotals(rows, Init(ks), num, den) + [Subtotal(rows, Last(ks), num, den)]
  }

  /** One cluster, one observation: its own mean, with weight one. */
  function EventWeighted(p: Pair): Pair {
    (if p.1 != 0.0 then p.0 / p.1 else 0.0, 1.0)
  }

  /** `_cluster_pairs`: one (numerator, denominator) pair per cluster. */
  function ClusterPairs(rows: seq<Row>, num: Row -> real, den: Row -> real, eventWeighted: bool): seq<Pair> {
    var pairs := Subtotals(rows, Keys(rows), num, den);
    if eventWeighted then seq(|pairs|, i requires 0 <= i < |pairs| => EventWeighted(pairs[i])) else pairs
  }

  lemma {:induction false} SubtotalsAt(rows: seq<Row>, ks: seq<Key>, num: Row -> real, den: Row -> real)
    ensures |Subtotals(rows, ks, num, den)| == |ks|
    ensures forall i :: 0 <= i < |ks| ==> Subtotals(rows, ks, num, den)[i] == Subtotal(rows, ks[i], num, den)
  {
    if ks != [] {
      SubtotalsAt(rows, Init(ks), num, den);
    }
  }

  function Totals(pairs: seq<Pair>): Pair {
    if pairs == [] then (0.0, 0.0)
    else var (n, d) := Totals(Init(pairs)); (n + Last(pairs).0, d + Last(pairs).1)
  }

  lemma SubtotalAppend(before: seq<Row>, r: Row, k: Key, f: Row -> real)
    ensures SumOf(Members(before + [r], k), f)
         == SumOf(Members(before, k), f) + if KeyOf(r, |before|) == k then f(r) else 0.0
  {
    assert Init(before + [r]) == before;
    var m := Members(before, k);
    if KeyOf(r, |before|) == k {
      assert Init(m + [r]) == m;
    } else {
      assert m + [] == m;
    }
  }

  /** One more row adds to its own cluster's pair and to no other. */
  lemma {:induction false} PairsAppend(before: seq<Row>, r: Row, ks: seq<Key>, num: Row -> real, den: Row -> real)
    requires NoDuplicates(ks)
    ensures Totals(Subtotals(before + [r], ks, num, den))
         == Plus(Totals(Subtotals(before, ks, num, den)),
                 if KeyOf(r, |before|) in ks then (num(r), den(r)) else (0.0, 0.0))
  {
    hide Subtotals, Totals, Members, SumOf;
    if ks == [] {
      TotalsNone(before, num, den);
      TotalsNone(before + [r], num, den);
    } else {
      var k, rest := Last(ks), Init(ks);
      assert ks == rest + [k] && k !in rest;
      PairsAppend(before, r, rest, num, den);
      TotalsUnfold(before, ks, num, den);
      TotalsUnfold(before + [r], ks, num, den);
      SubtotalAppend(before, r, k, num);
      SubtotalAppend(before, r, k, den);
    }
  }

  function Plus(a: Pair, b: Pair): Pair { (a.0 + b.0, a.1 + b.1) }

  lemma TotalsNone(rows: seq<Row>, num: Row -> real, den: Row -> real)
    ensures Totals(Subtotals(rows, [], num, den)) == (0.0, 0.0)
  {
  }

  lemma TotalsUnfold(rows: seq<Row>, ks: seq<Key>, num: Row -> real, den: Row -> real)
    requires ks != []
    ensures Totals(Subtotals(rows, ks, num, den))
         == Plus(Totals(Subtotals(rows, Init(ks), num, den)), Subtotal(rows, Last(ks), num, den))
  {
    hide Totals, Subtotal;
    TotalsAppend(Subtotals(rows, Init(ks), num, den), Subtotal(rows, Last(ks), num, den));
  }

  lemma TotalsAppend(pairs: seq<Pair>, p: Pair)
    ensures Totals(pairs + [p]) == (Totals(pairs).0 + p.0, Totals(pairs).1 + p.1)
  {
    assert Init(pairs + [p]) == pairs;
  }

  lemma NoRows(num: Row -> real, den: Row -> real)
    ensures SumOf([], num) == 0.0 == SumOf([], den)
    ensures Totals(ClusterPairs([], num, den, false)) == (0.0, 0.0)
  {
  }

  lemma SumUnfold(rows: seq<Row>, f: Row -> real)
    requires rows != []
    ensures SumOf(rows, f) == SumOf(Init(rows), f) + f(Last(rows))
  {
  }

  /** Collapsing to clusters conserves both sums, so the point estimate does not depend on the clustering. */
  lemma {:induction false} PairsConserve(rows: seq<Row>, num: Row -> real, den: Row -> real)
    ensures Totals(ClusterPairs(rows, num, den, false)) == (SumOf(rows, num), SumOf(rows, den))
  {
    hide Keys, Totals, NoDuplicates, Subtotals, Members, SumOf;
    if rows == [] {
      NoRows(num, den);
    } else {
      var before, r := Init(rows), Last(rows);
      var k, ks := KeyOf(r, |before|), Keys(before);
      assert rows == before + [r];
      PairsConserve(before, num, den);
      KeysAppend(before, r);
      KeysAre(before);
      SumUnfold(rows, num);
      SumUnfold(rows, den);
      PairsAppend(before, r, ks, num, den);
      if k !in ks {
        SubtotalAppend(before, r, k, num);
        SubtotalAppend(before, r, k, den);
        NoRows(num, den);
        assert Init(ks + [k]) == ks;
        TotalsUnfold(rows, ks + [k], num, den);
      }
    }
  }

  // --- the bootstrap ------------------------------------------------------------------------------

  predicate IsDraw(draw: seq<nat>, k: nat) {
    |draw| == k && forall j :: 0 <= j < k ==> draw[j] < k
  }

  predicate Fit(draws: seq<seq<nat>>, pairs: seq<Pair>) {
    forall d :: d in draws ==> IsDraw(d, |pairs|)
  }

  function Drawn(pairs: seq<Pair>, draw: seq<nat>): seq<Pair>
    requires forall j :: 0 <= j < |draw| ==> draw[j] < |pairs|
  {
    seq(|draw|, j requires 0 <= j < |draw| => pairs[draw[j]])
  }

  /** One entry per resample whose denominator is not zero. */
  function Replicates(pairs: seq<Pair>, draws: seq<seq<nat>>): seq<real>
    requires Fit(draws, pairs)
  {
    if draws == [] then []
    else
      var draw := Last(draws);
      assert draw in draws && IsDraw(draw, |pairs|);
      var (n, d) := Totals(Drawn(pairs, draw));
      Replicates(pairs, Init(draws)) + if d != 0.0 then [n / d] else []
  }

  /** `_boot`, with the generator's indices given as `draws`. */
  method Boot(pairs: seq<Pair>, draws: seq<seq<nat>>) returns (out: seq<real>)
    requires Fit(draws, pairs)
    ensures out == if pairs == [] then [] else Replicates(pairs, draws)
  {
    out := [];
    if pairs == [] { return; }
    for b := 0 to |draws|
      invariant out == Replicates(pairs, draws[..b])
    {
      var draw := draws[b];
      assert draw in draws;
      var sn, sd := 0.0, 0.0;
      for j := 0 to |draw|
        invariant (sn, sd) == Totals(Drawn(pairs, draw)[..j])
      {
        var (n, d) := pairs[draw[j]];
        assert Init(Drawn(pairs, draw)[..j + 1]) == Drawn(pairs, draw)[..j];
        sn, sd := sn + n, sd + d;
      }
      assert Drawn(pairs, draw)[..|draw|] == Drawn(pairs, draw);
      assert Init(draws[..b + 1]) == draws[..b];
      if sd != 0.0 { out := out + [sn / sd]; }
    }
    assert draws[..|draws|] == draws;
  }

  /** A draw adds up the pairs it names, each as often as it names it. */
  lemma DrawsAdd(pairs: seq<Pair>, draw: seq<nat>, i: nat)
    requires (forall j :: 0 <= j < |draw| ==> draw[j] < |pairs|) && i < |pairs|
    ensures Totals(Drawn(pairs, draw + [i]))
            == (Totals(Drawn(pairs, draw)).0 + pairs[i].0, Totals(Drawn(pairs, draw)).1 + pairs[i].1)
    ensures Totals(Drawn(pairs, [])) == (0.0, 0.0)
  {
    assert Drawn(pairs, draw + [i]) == Drawn(pairs, draw) + [pairs[i]];
    TotalsAppend(Drawn(pairs, draw), pairs[i]);
  }

  /** Draws give replicates in turn: the quotient of the drawn sums, unless the lower one is zero. */
  lemma ReplicatesAdd(pairs: seq<Pair>, draws: seq<seq<nat>>, draw: seq<nat>) returns (more: seq<real>)
    requires Fit(draws, pairs) && IsDraw(draw, |pairs|)
    ensures Fit(draws + [draw], pairs) && Replicates(pairs, draws + [draw]) == Replicates(pairs, draws) + more
    ensures var (n, d) := Totals(Drawn(pairs, draw));
            if d == 0.0 then more == [] else |more| == 1 && more[0] * d == n
  {
    hide Totals, Drawn;
    assert Init(draws + [draw]) == draws && Last(draws + [draw]) == draw;
    var (n, d) := Totals(Drawn(pairs, draw));
    more := if d != 0.0 then [n / d] else [];
    if d != 0.0 { QuotientIs(n, d); }
  }

  lemma QuotientIs(n: real, d: real)
    requires d != 0.0
    ensures (n / d) * d == n
  {
  }

  /** Drawing every cluster once gives the point estimate: the quotient of the sums over all rows. */
  lemma WholeDraw(rows: seq<Row>, num: Row -> real, den: Row -> real)
    ensures var pairs := ClusterPairs(rows, num, den, false);
            Drawn(pairs, seq(|pairs|, i requires 0 <= i < |pairs| => i)) == pairs
            && Totals(pairs) == (SumOf(rows, num), SumOf(rows, den))
  {
    PairsConserve(rows, num, den);
    hide ClusterPairs, Totals, SumOf;
  }

  /** Weighting by events gives each cluster its own mean and the weight one. */
  lemma EventWeights(rows: seq<Row>, num: Row -> real, den: Row -> real, i: nat)
    requires i < |Keys(rows)|
    ensures var (n, d) := (SumOf(Members(rows, Keys(rows)[i]), num), SumOf(Members(rows, Keys(rows)[i]), den));
            var pairs, weighted := ClusterPairs(rows, num, den, false), ClusterPairs(rows, num, den, true);
      && |pairs| == |weighted| == |Keys(rows)| && pairs[i] == (n, d)
      && weighted[i].1 == 1.0 && weighted[i].0 * d == (if d == 0.0 then 0.0 else n)
      && (d == 0.0 ==> weighted[i].0 == 0.0)
  {
    hide Keys, Members, SumOf;
    SubtotalsAt(rows, Keys(rows), num, den);
    MeanIs(Subtotal(rows, Keys(rows)[i], num, den));
  }

  lemma MeanIs(p: Pair)
    ensures EventWeighted(p).0 * p.1 == if p.1 == 0.0 then 0.0 else p.0
  {
  }

  /** `_ci`: the two percentiles of the sorted replicates. */
  function Ci(reps: seq<real>, alpha: real): Option<(real, real)>
    requires 0.0 <= alpha <= 1.0
  {
    if reps == [] then None
    else
      var s := Sort(reps, Same);
      SortSorts(reps, Same);
      Some((Percentile(s, alpha / 2.0).value, Percentile(s, 1.0 - alpha / 2.0).value))
  }

  /** With alpha x (n - 1) = 2k the interval of n replicates leaves out k of them on each side. */
  lemma CiCuts(reps: seq<real>, alpha: real, k: nat)
    requires |reps| > 1 && 0.0 <= alpha <= 1.0 && alpha * (|reps| - 1) as real == 2.0 * k as real
    ensures 2 * k < |reps| == |Sort(reps, Same)|
    ensures Ci(reps, alpha) == Some((Sort(reps, Same)[k], Sort(reps, Same)[|reps| - 1 - k]))
  {
    hide Percentile, Sort, Ordered, Ci, Same;
    var n, s := |reps| - 1, Sort(reps, Same);
    CutPositions(alpha, n as real, k as real);
    SortSorts(reps, Same);
    CiOf(reps, alpha, s);
    PercentileEnds(s, alpha / 2.0, k);
    PercentileEnds(s, 1.0 - alpha / 2.0, n - k);
  }

  lemma CiOf(reps: seq<real>, alpha: real, s: seq<real>)
    requires 0.0 <= alpha <= 1.0 && reps != [] && s == Sort(reps, Same)
    ensures Ci(reps, alpha) == Some((Percentile(s, alpha / 2.0).value, Percentile(s, 1.0 - alpha / 2.0).value))
  {
    hide Percentile, Sort;
  }

  /** At a whole position the percentile is the value there. */
  lemma PercentileEnds(s: seq<real>, q: real, k: nat)
    requires k < |s| && |s| > 1 && 0.0 <= q <= 1.0 && q * (|s| - 1) as real == k as real
    ensures Percentile(s, q) == Some(s[k])
  {
    if k + 1 < |s| { PercentileAt(s, q, k, 0.0); } else { PercentileAt(s, q, k - 1, 1.0); }
    hide Percentile;
  }

  lemma CutPositions(alpha: real, n: real, k: real)
    requires 0.0 <= alpha <= 1.0 && n > 0.0 && alpha * n == 2.0 * k
    ensures 2.0 * k <= n && (alpha / 2.0) * n == k && (1.0 - alpha / 2.0) * n == n - k
  {
    MulMono(n, alpha, 1.0);
  }

  ghost predicate RatiosWithin(pairs: seq<Pair>, lo: real, hi: real) {
    forall i :: 0 <= i < |pairs| ==> pairs[i].1 > 0.0 && lo <= pairs[i].0 / pairs[i].1 <= hi
  }

  ghost predicate Bounds(p: Pair, lo: real, hi: real) {
    lo * p.1 <= p.0 <= hi * p.1
  }

  /** The mediant inequality: a ratio of sums lies between the least and the greatest ratio. */
  lemma {:induction false} Mediant(pairs: seq<Pair>, lo: real, hi: real)
    requires RatiosWithin(pairs, lo, hi)
    ensures Totals(pairs).1 >= 0.0 && (pairs != [] ==> Totals(pairs).1 > 0.0)
    ensures Bounds(Totals(pairs), lo, hi)
  {
    hide Totals, RatiosWithin, Bounds;
    if pairs == [] {
      NoPairs(lo, hi);
    } else {
      RatiosSplit(pairs, lo, hi);
      Mediant(Init(pairs), lo, hi);
      MediantStep(Totals(Init(pairs)), Last(pairs), lo, hi);
      TotalsAppend(Init(pairs), Last(pairs));
      assert pairs == Init(pairs) + [Last(pairs)];
    }
  }

  lemma NoPairs(lo: real, hi: real)
    ensures Totals([]) == (0.0, 0.0) && Bounds((0.0, 0.0), lo, hi)
  {
  }

  lemma RatiosSplit(pairs: seq<Pair>, lo: real, hi: real)
    requires pairs != [] && RatiosWithin(pairs, lo, hi)
    ensures RatiosWithin(Init(pairs), lo, hi) && Last(pairs).1 > 0.0 && Bounds(Last(pairs), lo, hi)
  {
    var p := pairs[|pairs| - 1];
    var r := p.0 / p.1;
    assert p.1 * r == p.0;
    MulMono(p.1, lo, r);
    MulMono(p.1, r, hi);
  }

  lemma MediantStep(s: Pair, p: Pair, lo: real, hi: real)
    requires Bounds(s, lo, hi) && Bounds(p, lo, hi)
    ensures Bounds((s.0 + p.0, s.1 + p.1), lo, hi)
  {
    assert lo * (s.1 + p.1) == lo * s.1 + lo * p.1 && hi * (s.1 + p.1) == hi * s.1 + hi * p.1;
  }

  lemma Bounded(n: real, d: real, lo: real, hi: real)
    requires d > 0.0 && lo * d <= n <= hi * d
    ensures lo <= n / d <= hi
  {
    var r := n / d;
    assert r * d == n;
    if r < lo { MulStrict(d, r, lo); }
    if r > hi { MulStrict(d, hi, r); }
  }

  lemma DrawnWithin(pairs: seq<Pair>, draw: seq<nat>, lo: real, hi: real)
    requires pairs != [] && RatiosWithin(pairs, lo, hi) && IsDraw(draw, |pairs|)
    ensures var t := Totals(Drawn(pairs, draw)); t.1 > 0.0 && lo <= t.0 / t.1 <= hi
  {
    var drawn := Drawn(pairs, draw);
    assert RatiosWithin(drawn, lo, hi);
    hide Totals, RatiosWithin, Drawn;
    Mediant(drawn, lo, hi);
    Bounded(Totals(drawn).0, Totals(drawn).1, lo, hi);
  }

  lemma {:induction false} ReplicatesWithin(pairs: seq<Pair>, draws: seq<seq<nat>>, lo: real, hi: real)
    requires pairs != [] && RatiosWithin(pairs, lo, hi) && Fit(draws, pairs)
    ensures |Replicates(pairs, draws)| == |draws|
    ensures forall r :: r in Replicates(pairs, draws) ==> lo <= r <= hi
  {
    hide Totals, RatiosWithin, Drawn;
    if draws != [] {
      assert Last(draws) in draws;
      ReplicatesWithin(pairs, Init(draws), lo, hi);
      DrawnWithin(pairs, Last(draws), lo, hi);
    }
  }

  lemma OrderedIsSorted(s: seq<real>)
    requires Ordered(s, Same)
    ensures Sorted(s)
  {
  }

  lemma CiWithin(reps: seq<real>, alpha: real, lo: real, hi: real)
    requires reps != [] && 0.0 <= alpha <= 1.0 && forall r :: r in reps ==> lo <= r <= hi
    ensures Ci(reps, alpha).Some? && lo <= Ci(reps, alpha).value.0 <= Ci(reps, alpha).value.1 <= hi
  {
    SortSorts(reps, Same);
    hide Sort, Percentile, Part;
    var s := Sort(reps, Same);
    OrderedIsSorted(s);
    hide Ordered, Sorted;
    assert s[0] in multiset(s) && Last(s) in multiset(s);
    assert s[0] in reps && Last(s) in reps;
    PercentileMonotone(s, alpha / 2.0, 1.0 - alpha / 2.0);
  }

  /** Whatever is drawn, the interval is ordered and stays between the least and the greatest cluster ratio. */
  lemma IntervalWithinRatios(pairs: seq<Pair>, draws: seq<seq<nat>>, alpha: real, lo: real, hi: real)
    requires pairs != [] && draws != [] && 0.0 <= alpha <= 1.0
    requires RatiosWithin(pairs, lo, hi) && Fit(draws, pairs)
    ensures var ci := Ci(Replicates(pairs, draws), alpha);
            ci.Some? && lo <= ci.value.0 <= ci.value.1 <= hi
  {
    ReplicatesWithin(pairs, draws, lo, hi);
    hide Replicates, Ci, RatiosWithin;
    CiWithin(Replicates(pairs, draws), alpha, lo, hi);
  }

  lemma {:induction false} SumConstant(rows: seq<Row>, f: Row -> real)
    requires forall r :: r in rows ==> f(r) == 1.0
    ensures SumOf(rows, f) == |rows| as real
  {
    if rows != [] {
      assert Last(rows) in rows;
      SumConstant(Init(rows), f);
    }
  }

  function One(r: Row): real { 1.0 }

  /** An all-success sample gives [1, 1] under either weighting, however few clusters it has. */
  lemma AllSuccessCollapses(rows: seq<Row>, value: Row -> real, eventWeighted: bool, draws: seq<seq<nat>>, alpha: real)
    requires rows != [] && (forall r :: r in rows ==> value(r) == 1.0) && draws != [] && 0.0 <= alpha <= 1.0
    requires Fit(draws, ClusterPairs(rows, value, One, eventWeighted))
    ensures Ci(Replicates(ClusterPairs(rows, value, One, eventWeighted), draws), alpha) == Some((1.0, 1.0))
  {
    hide ClusterPairs, RatiosWithin, Replicates, Ci, EventWeighted, Subtotals, Keys;
    var pairs := ClusterPairs(rows, value, One, eventWeighted);
    SuccessfulRatios(rows, value, eventWeighted);
    IntervalWithinRatios(pairs, draws, alpha, 1.0, 1.0);
  }

  lemma SuccessfulRatios(rows: seq<Row>, value: Row -> real, eventWeighted: bool)
    requires rows != [] && forall r :: r in rows ==> value(r) == 1.0
    ensures ClusterPairs(rows, value, One, eventWeighted) != []
    ensures RatiosWithin(ClusterPairs(rows, value, One, eventWeighted), 1.0, 1.0)
  {
    hide Keys, Members, SumOf, Subtotals, Subtotal;
    var ks := Keys(rows);
    var pairs := Subtotals(rows, ks, value, One);
    KeysAre(rows);
    assert KeyOf(rows[0], 0) in ks;
    SubtotalsAt(rows, ks, value, One);
    forall i | 0 <= i < |pairs|
      ensures pairs[i].1 > 0.0 && pairs[i].0 / pairs[i].1 == 1.0 && EventWeighted(pairs[i]) == (1.0, 1.0)
    {
      assert ks[i] in ks;
      SuccessfulCluster(rows, ks[i], value);
      SelfQuotient(pairs[i].1);
    }
    SelfQuotient(1.0);
  }

  lemma SuccessfulCluster(rows: seq<Row>, k: Key, value: Row -> real)
    requires Members(rows, k) != [] && forall r :: r in rows ==> value(r) == 1.0
    ensures Subtotal(rows, k, value, One).0 == Subtotal(rows, k, value, One).1 > 0.0
  {
    var members := Members(rows, k);
    forall r | r in members ensures value(r) == 1.0 { MemberRow(rows, k, r); }
    SumConstant(members, value);
    SumConstant(members, One);
  }

  lemma SelfQuotient(x: real)
    requires x > 0.0
    ensures x / x == 1.0
  {
  }
}
