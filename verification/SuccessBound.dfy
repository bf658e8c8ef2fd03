// `cluster_success_lower_bound`: the exact one-sided bound with the cluster as the unit.
module SuccessBound {
  import opened Prelude
  import opened Reals
  import opened Binomial
  import opened Clusters
  import opened FailedClusters

  const STEPS: nat := 200

  /** The interval left after `steps` halvings of [lo, hi]. */
  function Bisect(k: nat, n: nat, alpha: real, steps: nat, lo: real, hi: real): (real, real)
    decreases steps
  {
    if steps == 0 then (lo, hi)
    else
      var mid := (lo + hi) / 2.0;
      if AtLeast(k, n, mid) < alpha then Bisect(k, n, alpha, steps - 1, mid, hi)
      else Bisect(k, n, alpha, steps - 1, lo, mid)
  }

  /** The bound from the cluster counts; `root` is what the power function returned for alpha ** (1/n). */
  function Lower(n: nat, failed: nat, alpha: real, root: real): Option<real>
    requires failed <= n
  {
    if n == 0 then None
    else if failed == 0 then Some(root)
    else Some(Bisect(n - failed, n, alpha, STEPS, 0.0, 1.0).0)
  }

  ghost predicate IsRoot(root: real, n: nat, alpha: real) {
    root >= 0.0 && Pow(root, n) == alpha
  }

  /**
   * `root` stands for alpha ** (1/n), which the power function supplies. The bound is right to within the width of 200
   * halvings: every positive chance below it makes so few failed clusters too unlikely at level alpha, and no chance
   * that much above it does.
   */
  method ClusterSuccessLowerBound(rows: seq<Row>, ok: Row -> bool, alpha: real, root: real)
    returns (clusters: nat, failed: nat, lower: Option<real>)
    requires alpha > 0.0
    requires rows != [] ==> IsRoot(root, |Keys(rows)|, alpha)
    ensures clusters == |Keys(rows)| && failed == |FailedKeys(rows, ok)| <= clusters
    ensures lower == Lower(clusters, failed, alpha, root)
    ensures lower.None? <==> rows == []
    ensures rows != [] && alpha <= 1.0 ==>
              var k := clusters - failed;
              && 0.0 <= lower.value <= 1.0
              && (forall p :: 0.0 < p < lower.value ==> AtLeast(k, clusters, p) < alpha)
              && (forall p :: lower.value + 1.0 / TwoTo(200) as real <= p <= 1.0 ==> AtLeast(k, clusters, p) >= alpha)
  {
    clusters, failed := CountFailed(rows, ok);
    SomeCluster(rows);
    BoundSplits(clusters, failed, alpha, root);
    hide Keys, FailedKeys, IsRoot, TwoTo;
    if clusters == 0 { return clusters, failed, None; }
    if failed == 0 { return clusters, failed, Some(root); }
    hide AtLeast;
    var lo, hi := 0.0, 1.0;
    for step := 0 to 200
      invariant 0.0 <= lo < hi <= 1.0
      invariant Bisect(clusters - failed, clusters, alpha, 200 - step, lo, hi)
             == Bisect(clusters - failed, clusters, alpha, STEPS, 0.0, 1.0)
    {
      var mid := (lo + hi) / 2.0;
      var tail := BinomTailGe(clusters - failed, clusters, mid);
      if tail < alpha { lo := mid; } else { hi := mid; }
    }
    lower := Some(lo);
  }

  lemma SomeCluster(rows: seq<Row>)
    ensures |Keys(rows)| == 0 <==> rows == []
  {
    KeysAre(rows);
    if rows != [] { assert KeyOf(rows[0], 0) in Keys(rows); }
  }

  lemma BoundSplits(n: nat, failed: nat, alpha: real, root: real)
    requires failed <= n && alpha > 0.0 && (n > 0 ==> IsRoot(root, n, alpha))
    ensures n > 0 && alpha <= 1.0 ==>
              var lower, k := Lower(n, failed, alpha, root).value, n - failed;
              && 0.0 <= lower <= 1.0
              && (forall p :: 0.0 < p < lower ==> AtLeast(k, n, p) < alpha)
              && (forall p :: lower + 1.0 / TwoTo(200) as real <= p <= 1.0 ==> AtLeast(k, n, p) >= alpha)
  {
    Accuracy();
    if n > 0 && alpha <= 1.0 {
      if failed == 0 {
        ZeroFailureBoundIsExact(n, alpha, root);
      } else {
        BoundIsClopperPearson(n, failed, alpha, root);
      }
    }
    hide AtLeast, IsRoot, Bisect, TwoTo;
  }

  lemma {:induction false} HalvedPositive(length: real, steps: nat)
    requires length > 0.0
    ensures Halved(length, steps) > 0.0
    decreases steps
  {
    if steps > 0 { HalvedPositive(length / 2.0, steps - 1); }
  }

  /** Two hundred halvings of 1 leave 2^-200. */
  lemma {:induction false} HalvedIs(length: real, steps: nat)
    ensures Halved(length, steps) * TwoTo(steps) as real == length
    decreases steps
  {
    if steps > 0 {
      HalvedIs(length / 2.0, steps - 1);
      var h, t := Halved(length, steps), TwoTo(steps - 1) as real;
      assert TwoTo(steps) as real == 2.0 * t;
      Twice(h, t, length);
    }
  }

  /** The steps of the loop leave a width of 2^-200. */
  lemma Accuracy()
    ensures Halved(1.0, STEPS) == 1.0 / TwoTo(200) as real && 1.0 / TwoTo(200) as real > 0.0
  {
    hide Halved, TwoTo;
    HalvedIs(1.0, STEPS);
    HalvedPositive(1.0, STEPS);
    Quotient(Halved(1.0, STEPS), TwoTo(STEPS) as real);
  }

  lemma Quotient(h: real, t: real)
    requires h * t == 1.0 && t > 0.0
    ensures h == 1.0 / t && 1.0 / t > 0.0
  {
  }

  lemma Twice(h: real, t: real, length: real)
    requires h * t == length / 2.0
    ensures h * (2.0 * t) == length
  {
  }

  /** What is left of a length after halving it `steps` times. */
  function Halved(length: real, steps: nat): real
    decreases steps
  {
    if steps == 0 then length else Halved(length / 2.0, steps - 1)
  }

  /** Bisection keeps a rejected lower end and an accepted upper end, and halves their distance each time. */
  lemma {:induction false} BisectBrackets(k: nat, n: nat, alpha: real, steps: nat, lo: real, hi: real)
    requires lo < hi
    requires lo == 0.0 || AtLeast(k, n, lo) < alpha
    requires AtLeast(k, n, hi) >= alpha
    ensures var (l, h) := Bisect(k, n, alpha, steps, lo, hi);
            lo <= l < h <= hi && h - l == Halved(hi - lo, steps) && (l == 0.0 || AtLeast(k, n, l) < alpha)
            && AtLeast(k, n, h) >= alpha
    decreases steps
  {
    hide AtLeast;
    if steps > 0 {
      var mid := (lo + hi) / 2.0;
      assert hi - mid == (hi - lo) / 2.0 == mid - lo;
      if AtLeast(k, n, mid) < alpha {
        BisectBrackets(k, n, alpha, steps - 1, mid, hi);
      } else {
        BisectBrackets(k, n, alpha, steps - 1, lo, mid);
      }
    }
  }

  /**
   * With some failure the result splits [0, 1] within 2^-200 of the Clopper-Pearson bound: every positive chance up to
   * it is rejected at level alpha, every chance 2^-200 above it is not, and so any exact root lies between the two.
   */
  lemma BoundIsClopperPearson(n: nat, failed: nat, alpha: real, root: real)
    requires 0 < failed <= n && 0.0 < alpha <= 1.0
    ensures var k, lower, w := n - failed, Lower(n, failed, alpha, root).value, 1.0 / TwoTo(200) as real;
      && 0.0 <= lower < lower + w <= 1.0
      && (forall p :: 0.0 < p <= lower ==> AtLeast(k, n, p) < alpha)
      && (forall p :: lower + w <= p <= 1.0 ==> AtLeast(k, n, p) >= alpha)
      && (forall p :: 0.0 < p <= 1.0 && 0 < k && AtLeast(k, n, p) == alpha ==> lower < p <= lower + w)
  {
    hide AtLeast, Bisect, Halved, TwoTo;
    var k := n - failed;
    var (lower, upper) := Bisect(k, n, alpha, STEPS, 0.0, 1.0);
    TailAtCertainty(k, n);
    BisectBrackets(k, n, alpha, STEPS, 0.0, 1.0);
    assert Halved(1.0 - 0.0, STEPS) == Halved(1.0, STEPS);
    Accuracy();
    forall p | 0.0 < p <= lower ensures AtLeast(k, n, p) < alpha {
      TailMonotone(k, n, p, lower);
    }
    forall p | upper <= p <= 1.0 ensures AtLeast(k, n, p) >= alpha {
      TailMonotone(k, n, upper, p);
    }
    forall p | 0.0 < p <= 1.0 && 0 < k && AtLeast(k, n, p) == alpha ensures lower < p <= upper {
      if p > upper { TailStrict(k, n, upper, p); }
    }
  }

  /** With no failure the power branch returns the exact root of the same equation. */
  lemma ZeroFailureBoundIsExact(n: nat, alpha: real, root: real)
    requires n > 0 && 0.0 < alpha <= 1.0 && IsRoot(root, n, alpha)
    ensures Lower(n, 0, alpha, root) == Some(root) && 0.0 < root <= 1.0 && AtLeast(n, n, root) == alpha
    ensures forall p :: 0.0 <= p <= 1.0 ==> (AtLeast(n, n, p) < alpha <==> p < root)
  {
    hide AtLeast, Pow;
    PowUnfold(0.0, n);
    if root > 1.0 { PowStrict(1.0, root, n); PowOne(n); }
    AllSucceed(n, root);
    forall p | 0.0 <= p <= 1.0 ensures AtLeast(n, n, p) < alpha <==> p < root {
      AllSucceed(n, p);
      if p < root { PowStrict(p, root, n); }
      if root < p { PowStrict(root, p, n); }
    }
  }

  lemma {:induction false} PowOne(n: nat)
    ensures Pow(1.0, n) == 1.0
  {
    if n > 0 { PowOne(n - 1); }
  }

  lemma {:induction false} BisectRange(k: nat, n: nat, alpha: real, steps: nat, lo: real, hi: real)
    requires lo <= hi
    ensures lo <= Bisect(k, n, alpha, steps, lo, hi).0 <= hi
    decreases steps
  {
    hide AtLeast;
    if steps > 0 {
      var mid := (lo + hi) / 2.0;
      BisectRange(k, n, alpha, steps - 1, mid, hi);
      BisectRange(k, n, alpha, steps - 1, lo, mid);
    }
  }

  /** P(at least k of n) is nowhere above P(at least k' of n'). */
  ghost predicate NowhereLikelier(k: nat, n: nat, k': nat, n': nat) {
    forall p :: 0.0 <= p <= 1.0 ==> AtLeast(k, n, p) <= AtLeast(k', n', p)
  }

  /** A tail that is nowhere smaller never bisects to a higher bound, even where the two paths part. */
  lemma {:induction false} BisectAntitone(k: nat, n: nat, k': nat, n': nat, alpha: real, steps: nat, lo: real, hi: real)
    requires 0.0 <= lo <= hi <= 1.0 && NowhereLikelier(k, n, k', n')
    ensures Bisect(k', n', alpha, steps, lo, hi).0 <= Bisect(k, n, alpha, steps, lo, hi).0
    decreases steps
  {
    hide AtLeast;
    if steps > 0 {
      var mid := (lo + hi) / 2.0;
      assert AtLeast(k, n, mid) <= AtLeast(k', n', mid);
      if AtLeast(k', n', mid) < alpha {
        BisectAntitone(k, n, k', n', alpha, steps - 1, mid, hi);
      } else if AtLeast(k, n, mid) < alpha {
        BisectRange(k', n', alpha, steps - 1, lo, mid);
        BisectRange(k, n, alpha, steps - 1, mid, hi);
      } else {
        BisectAntitone(k, n, k', n', alpha, steps - 1, lo, mid);
      }
    }
  }

  /** Any change of counts that makes the tail nowhere smaller never raises the bound, across both branches. */
  lemma LowerAntitone(n: nat, failed: nat, n': nat, failed': nat, alpha: real, root: real, root': real)
    requires 0 < n && 0 < n' && failed <= n && failed' <= n' && 0.0 < alpha <= 1.0
    requires IsRoot(root, n, alpha) && IsRoot(root', n', alpha)
    requires failed == 0 || 0 < failed'
    requires NowhereLikelier(n - failed, n, n' - failed', n')
    ensures Lower(n', failed', alpha, root').value <= Lower(n, failed, alpha, root).value
  {
    hide AtLeast, Bisect, IsRoot;
    if failed > 0 {
      BisectAntitone(n - failed, n, n' - failed', n', alpha, STEPS, 0.0, 1.0);
    } else {
      ZeroFailureBoundIsExact(n, alpha, root);
      assert AtLeast(n, n, root) <= AtLeast(n' - failed', n', root);
      if failed' > 0 {
        BoundIsClopperPearson(n', failed', alpha, root');
      } else {
        ZeroFailureBoundIsExact(n', alpha, root');
      }
    }
  }

  /** One more failed cluster never raises the bound. */
  lemma MoreFailuresNeverRaise(n: nat, failed: nat, alpha: real, root: real)
    requires failed < n && 0.0 < alpha <= 1.0 && IsRoot(root, n, alpha)
    ensures Lower(n, failed + 1, alpha, root).value <= Lower(n, failed, alpha, root).value
  {
    TrialsAndTargets(n - failed - 1, n);
    hide AtLeast, Lower, IsRoot;
    LowerAntitone(n, failed, n, failed + 1, alpha, root, root);
  }

  lemma TrialsAndTargets(k: nat, n: nat)
    ensures NowhereLikelier(k, n, k, n) && NowhereLikelier(k, n, k, n + 1)
    ensures NowhereLikelier(k + 1, n, k, n) && NowhereLikelier(k + 1, n + 1, k, n)
  {
    hide AtLeast;
    forall p | 0.0 <= p <= 1.0
      ensures AtLeast(k + 1, n, p) <= AtLeast(k, n, p) <= AtLeast(k, n + 1, p)
              && AtLeast(k + 1, n + 1, p) <= AtLeast(k, n, p)
    {
      TailMoreTrials(k, n, p);
      TailAntitone(k, n, p);
    }
  }

  // --- coverage --------------------------------------------------------------------------------

  /** The bound from k passing clusters of n is above the true chance p. */
  ghost predicate Misses(k: nat, n: nat, alpha: real, root: real, p: real)
    requires k <= n && n > 0
  {
    Lower(n, n - k, alpha, root).value > p
  }

  /** Chance that n clusters, each passing with chance p, come out at one of the counts from k on whose bound misses. */
  ghost function MissChance(k: nat, n: nat, alpha: real, root: real, p: real): real
    requires n > 0
    decreases n + 1 - k
  {
    if k > n then 0.0
    else (if Misses(k, n, alpha, root, p) then Exactly(k, n, p) else 0.0) + MissChance(k + 1, n, alpha, root, p)
  }

  lemma MissedIsUnlikely(k: nat, n: nat, alpha: real, root: real, p: real)
    requires k <= n && n > 0 && 0.0 < alpha <= 1.0 && IsRoot(root, n, alpha) && 0.0 <= p <= 1.0
    ensures Misses(k, n, alpha, root, p) ==> AtLeast(k, n, p) < alpha
    ensures !Misses(k, n, alpha, root, p) && p + 1.0 / TwoTo(200) as real <= 1.0
            ==> AtLeast(k, n, p + 1.0 / TwoTo(200) as real) >= alpha
  {
    Accuracy();
    hide AtLeast, Bisect, IsRoot, TwoTo;
    TailAtCertainty(k, n);
    if k == n {
      ZeroFailureBoundIsExact(n, alpha, root);
    } else {
      BoundIsClopperPearson(n, n - k, alpha, root);
      TailEnds(k, n, Lower(n, n - k, alpha, root).value);
    }
  }

  lemma MissesGoUp(k: nat, n: nat, alpha: real, root: real, p: real)
    requires k < n && 0.0 < alpha <= 1.0 && IsRoot(root, n, alpha) && Misses(k, n, alpha, root, p)
    ensures Misses(k + 1, n, alpha, root, p)
  {
    hide Lower;
    MoreFailuresNeverRaise(n, n - k - 1, alpha, root);
  }

  /** From the first count that misses on all miss, so the chance is the tail; before it nothing is added. */
  lemma {:induction false} MissChanceIsTail(k: nat, n: nat, alpha: real, root: real, p: real) returns (least: nat)
    requires k <= n + 1 && n > 0 && 0.0 < alpha <= 1.0 && IsRoot(root, n, alpha)
    ensures k <= least <= n + 1 && MissChance(k, n, alpha, root, p) == AtLeast(least, n, p)
    ensures forall j :: k <= j <= n ==> (Misses(j, n, alpha, root, p) <==> j >= least)
    decreases n + 1 - k
  {
    hide AtLeast, Exactly, Misses, IsRoot;
    if k == n + 1 {
      TailEnds(k, n, p);
      least := k;
    } else {
      least := MissChanceIsTail(k + 1, n, alpha, root, p);
      if Misses(k, n, alpha, root, p) {
        if k < n { MissesGoUp(k, n, alpha, root, p); }
        TailDifference(k, n, p);
        least := k;
      }
    }
  }

  /**
   * Whatever the true chance p, the bound lies above it with chance at most alpha; and one count less among those that
   * miss would exceed alpha at a chance 2^-200 above p.
   */
  lemma Coverage(n: nat, alpha: real, root: real, p: real) returns (least: nat)
    requires n > 0 && 0.0 < alpha <= 1.0 && IsRoot(root, n, alpha) && 0.0 <= p <= 1.0
    ensures MissChance(0, n, alpha, root, p) <= alpha
    ensures 0 < least <= n + 1 && MissChance(0, n, alpha, root, p) == AtLeast(least, n, p)
    ensures forall k :: 0 <= k <= n ==> (Misses(k, n, alpha, root, p) <==> k >= least)
    ensures p + 1.0 / TwoTo(200) as real <= 1.0 ==> AtLeast(least - 1, n, p + 1.0 / TwoTo(200) as real) >= alpha
  {
    hide AtLeast, Misses, MissChance, IsRoot, TwoTo;
    least := MissChanceIsTail(0, n, alpha, root, p);
    if least <= n { MissedIsUnlikely(least, n, alpha, root, p); }
    TailEnds(least, n, p);
    if least > 0 { MissedIsUnlikely(least - 1, n, alpha, root, p); }
  }

  ghost function BoundOf(rows: seq<Row>, ok: Row -> bool, alpha: real, root: real): Option<real> {
    FailedCount(rows, ok);
    Lower(|Keys(rows)|, |FailedKeys(rows, ok)|, alpha, root)
  }

  /** A failing row, put in anywhere and landing in any cluster, never raises the bound. */
  lemma FailingRowNeverRaises(a: seq<Row>, r: Row, b: seq<Row>, ok: Row -> bool, alpha: real, root: real, root': real)
    requires a + b != [] && !ok(r) && 0.0 < alpha <= 1.0
    requires IsRoot(root, |Keys(a + b)|, alpha) && IsRoot(root', |Keys(a + [r] + b)|, alpha)
    ensures BoundOf(a + b, ok, alpha, root).Some? && BoundOf(a + [r] + b, ok, alpha, root').Some?
    ensures BoundOf(a + [r] + b, ok, alpha, root').value <= BoundOf(a + b, ok, alpha, root).value
  {
    CountsAppend(a + b, r, ok);
    CountsMoved(a, r, b, ok);
    hide Keys, FailedKeys, AtLeast, IsRoot, Bisect;
    var rows, rows' := a + b, a + [r] + b;
    var n, f, n', f' := |Keys(rows)|, |FailedKeys(rows, ok)|, |Keys(rows')|, |FailedKeys(rows', ok)|;
    TrialsAndTargets(n - f, n);
    if n - f > 0 { TrialsAndTargets(n - f - 1, n); }
    LowerAntitone(n, f, n', f', alpha, root, root');
  }

  /** A passing row never lowers it; inside a known cluster it changes nothing. */
  lemma PassingRowNeverLowers(a: seq<Row>, r: Row, b: seq<Row>, ok: Row -> bool, alpha: real, root: real, root': real)
    requires a + b != [] && ok(r) && 0.0 < alpha <= 1.0
    requires IsRoot(root, |Keys(a + b)|, alpha) && IsRoot(root', |Keys(a + [r] + b)|, alpha)
    ensures BoundOf(a + b, ok, alpha, root).Some? && BoundOf(a + [r] + b, ok, alpha, root').Some?
    ensures BoundOf(a + b, ok, alpha, root).value <= BoundOf(a + [r] + b, ok, alpha, root').value
    ensures KeyOf(r, |a + b|) in Keys(a + b)
            ==> BoundOf(a + [r] + b, ok, alpha, root) == BoundOf(a + b, ok, alpha, root)
  {
    CountsAppend(a + b, r, ok);
    CountsMoved(a, r, b, ok);
    hide Keys, FailedKeys, AtLeast, IsRoot, Bisect;
    var rows, rows' := a + b, a + [r] + b;
    var n, f, n', f' := |Keys(rows)|, |FailedKeys(rows, ok)|, |Keys(rows')|, |FailedKeys(rows', ok)|;
    TrialsAndTargets(n - f, n);
    LowerAntitone(n', f', n, f, alpha, root', root);
  }
}
