// The exact binomial upper tail P(X >= k) and the summation that computes it.
module Binomial {
  import opened Reals

  function Fact(n: nat): (f: nat)
    ensures f > 0
  {
    if n == 0 then 1 else n * Fact(n - 1)
  }

  /** Chance that n independent trials of chance p succeed at least k times, by conditioning on the last one. */
  function AtLeast(k: int, n: nat, p: real): real
    decreases n
  {
    if n == 0 then if k <= 0 then 1.0 else 0.0
    else p * AtLeast(k - 1, n - 1, p) + (1.0 - p) * AtLeast(k, n - 1, p)
  }

  lemma TailUnfold(k: int, n: nat, p: real)
    requires n > 0
    ensures AtLeast(k, n, p) == p * AtLeast(k - 1, n - 1, p) + (1.0 - p) * AtLeast(k, n - 1, p)
  {
  }

  /** Chance of exactly k successes. */
  function Exactly(k: int, n: nat, p: real): real
    decreases n
  {
    if n == 0 then if k == 0 then 1.0 else 0.0
    else p * Exactly(k - 1, n - 1, p) + (1.0 - p) * Exactly(k, n - 1, p)
  }

  lemma ExactlyUnfold(k: int, n: nat, p: real)
    requires n > 0
    ensures Exactly(k, n, p) == p * Exactly(k - 1, n - 1, p) + (1.0 - p) * Exactly(k, n - 1, p)
  {
  }

  /** Pascal's triangle. */
  function Choose(n: nat, i: int): nat {
    if i < 0 || i > n then 0
    else if n == 0 then 1
    else Choose(n - 1, i - 1) + Choose(n - 1, i)
  }

  /** The factorial quotient that `lgamma` gives the logarithm of. */
  function Coefficient(n: nat, i: nat): real
    requires i <= n
  {
    assert Fact(i) as real * Fact(n - i) as real > 0.0;
    Fact(n) as real / (Fact(i) as real * Fact(n - i) as real)
  }

  /** One summand as the program writes it: n! / (i! (n-i)!) * p^i * (1-p)^(n-i). */
  function Term(n: nat, i: nat, p: real): real
    requires i <= n
  {
    Coefficient(n, i) * (Pow(p, i) * Pow(1.0 - p, n - i))
  }

  lemma {:induction false} ChooseOutside(n: nat, i: int)
    ensures i == n ==> Choose(n, i) == 1
    ensures i == 0 ==> Choose(n, i) == 1
  {
    if n > 0 { ChooseOutside(n - 1, i - 1); ChooseOutside(n - 1, i); }
  }

  lemma FactorialStep(a: nat, b: nat, f: nat, g: nat, i: nat, n: nat, m: nat)
    requires i <= n
    requires a * (f * ((n - i) * g)) == m
    requires b * ((i * f) * g) == m
    ensures (a + b) * ((i * f) * ((n - i) * g)) == n * m
  {
    calc {
      (a + b) * ((i * f) * ((n - i) * g));
      i * (a * (f * ((n - i) * g))) + (n - i) * (b * ((i * f) * g));
      i * m + (n - i) * m;
      n * m;
    }
  }

  /** Pascal's recursion gives the factorial quotient. */
  lemma {:induction false} ChooseFactorial(n: nat, i: nat)
    requires i <= n
    ensures Choose(n, i) * (Fact(i) * Fact(n - i)) == Fact(n)
  {
    ChooseOutside(n, i);
    if 0 < i < n {
      ChooseFactorial(n - 1, i - 1);
      ChooseFactorial(n - 1, i);
      var a, b := Choose(n - 1, i - 1), Choose(n - 1, i);
      var f, g := Fact(i - 1), Fact(n - i - 1);
      assert Fact(i) == i * f && Fact(n - i) == (n - i) * g;
      FactorialStep(a, b, f, g, i, n, Fact(n - 1));
    }
  }

  lemma Difference(p: real, a: real, b: real, c: real)
    ensures p * (a - b) + (1.0 - p) * (b - c) == (p * a + (1.0 - p) * b) - (p * b + (1.0 - p) * c)
  {
  }

  /** The binomial weight: Pascal's coefficient times the chance of one such outcome. */
  function Weight(k: int, n: nat, p: real): real {
    if k < 0 || k > n then 0.0 else Choose(n, k) as real * (Pow(p, k) * Pow(1.0 - p, n - k))
  }

  /** By the last trial's outcome. */
  function Either(p: real, a: real, b: real): real {
    p * a + (1.0 - p) * b
  }

  lemma WeightPascal(k: int, n: nat, p: real)
    requires n > 0
    ensures Weight(k, n, p) == Either(p, Weight(k - 1, n - 1, p), Weight(k, n - 1, p))
  {
    hide Pow;
    var q := 1.0 - p;
    ChooseOutside(n, k); ChooseOutside(n - 1, k); ChooseOutside(n - 1, k - 1);
    if 0 <= k <= n {
      PowUnfold(p, k);
      PowUnfold(q, n - k);
    }
    if 0 < k < n {
      PascalStep(p, q, Choose(n - 1, k - 1) as real, Choose(n - 1, k) as real, Pow(p, k - 1), Pow(q, n - 1 - k));
    } else if k == 0 {
      PascalStep(p, q, 0.0, 1.0, 1.0, Pow(q, n - 1));
    } else if k == n {
      PascalStep(p, q, 1.0, 0.0, Pow(p, n - 1), 1.0);
    }
  }

  lemma PascalStep(p: real, q: real, c: real, d: real, a: real, b: real)
    ensures p * (c * (a * (q * b))) + q * (d * ((p * a) * b)) == (c + d) * ((p * a) * (q * b))
    ensures d == 0.0 ==> p * (c * (a * b)) + q * 0.0 == c * ((p * a) * b)
    ensures c == 0.0 ==> p * 0.0 + q * (d * (a * b)) == d * (a * (q * b))
  {
    assert q * 0.0 == 0.0 && p * 0.0 == 0.0;
  }

  lemma {:induction false} ExactlyIsWeight(k: int, n: nat, p: real)
    ensures Exactly(k, n, p) == Weight(k, n, p)
    decreases n
  {
    if n > 0 {
      hide Exactly, Weight, Either;
      ExactlyIsWeight(k - 1, n - 1, p);
      ExactlyIsWeight(k, n - 1, p);
      ExactlyEither(k, n, p);
      WeightPascal(k, n, p);
    }
  }

  lemma ExactlyEither(k: int, n: nat, p: real)
    requires n > 0
    ensures Exactly(k, n, p) == Either(p, Exactly(k - 1, n - 1, p), Exactly(k, n - 1, p))
  {
    hide Exactly;
    ExactlyUnfold(k, n, p);
  }

  lemma TermCoefficient(n: nat, i: nat)
    requires i <= n
    ensures Coefficient(n, i) == Choose(n, i) as real
  {
    hide Choose, Fact;
    var c, f, g, m := Choose(n, i), Fact(i), Fact(n - i), Fact(n);
    ChooseFactorial(n, i);
    Quotient(c, f, g, m);
  }

  lemma TermIsExactly(n: nat, i: nat, p: real)
    requires i <= n
    ensures Term(n, i, p) == Exactly(i, n, p)
  {
    hide Coefficient, Exactly, Pow;
    TermCoefficient(n, i);
    ExactlyIsWeight(i, n, p);
  }

  lemma Quotient(c: nat, f: nat, g: nat, m: nat)
    requires f > 0 && g > 0 && c * (f * g) == m
    ensures m as real / (f as real * g as real) == c as real
  {
    var d := f as real * g as real;
    assert (f * g) as real == d;
    assert f * g > 0;
    assert c as real * d == m as real;
  }

  lemma NoTrials(k: int, p: real)
    ensures AtLeast(k, 0, p) - AtLeast(k + 1, 0, p) == Exactly(k, 0, p)
  {
  }

  lemma {:induction false} TailDifference(k: int, n: nat, p: real)
    ensures AtLeast(k, n, p) - AtLeast(k + 1, n, p) == Exactly(k, n, p)
    decreases n
  {
    hide AtLeast, Exactly;
    if n == 0 {
      NoTrials(k, p);
    } else {
      TailDifference(k - 1, n - 1, p);
      TailDifference(k, n - 1, p);
      TailUnfold(k, n, p);
      TailUnfold(k + 1, n, p);
      ExactlyUnfold(k, n, p);
      Difference(p, AtLeast(k - 1, n - 1, p), AtLeast(k, n - 1, p), AtLeast(k + 1, n - 1, p));
    }
  }

  lemma {:induction false} TailEnds(k: int, n: nat, p: real)
    ensures k <= 0 ==> AtLeast(k, n, p) == 1.0
    ensures k > n ==> AtLeast(k, n, p) == 0.0
    decreases n
  {
    if n > 0 { TailEnds(k - 1, n - 1, p); TailEnds(k, n - 1, p); }
  }

  lemma {:induction false} TailAtCertainty(k: int, n: nat)
    ensures AtLeast(k, n, 0.0) == if k <= 0 then 1.0 else 0.0
    ensures AtLeast(k, n, 1.0) == if k <= n then 1.0 else 0.0
    decreases n
  {
    if n > 0 { TailAtCertainty(k - 1, n - 1); TailAtCertainty(k, n - 1); }
  }

  lemma {:induction false} TailRange(k: int, n: nat, p: real)
    requires 0.0 <= p <= 1.0
    ensures 0.0 <= AtLeast(k, n, p) <= 1.0
    decreases n
  {
    hide AtLeast;
    if n == 0 {
      TailEnds(k, 0, p);
    } else {
      TailRange(k - 1, n - 1, p);
      TailRange(k, n - 1, p);
      TailUnfold(k, n, p);
      Mix(p, 1.0 - p, AtLeast(k - 1, n - 1, p), AtLeast(k, n - 1, p), 0.0, 1.0);
    }
  }

  /** A higher target is never likelier. */
  lemma {:induction false} TailAntitone(k: int, n: nat, p: real)
    requires 0.0 <= p <= 1.0
    ensures AtLeast(k + 1, n, p) <= AtLeast(k, n, p)
    decreases n
  {
    hide AtLeast;
    if n == 0 {
      TailEnds(k, 0, p);
      TailEnds(k + 1, 0, p);
    } else {
      TailAntitone(k - 1, n - 1, p);
      TailAntitone(k, n - 1, p);
      TailUnfold(k, n, p);
      TailUnfold(k + 1, n, p);
      MixMono(p, 1.0 - p, AtLeast(k, n - 1, p), AtLeast(k + 1, n - 1, p), AtLeast(k - 1, n - 1, p),
              AtLeast(k, n - 1, p));
    }
  }

  /** P(X >= k) never falls as the chance of success grows. */
  lemma {:induction false} TailMonotone(k: int, n: nat, p: real, q: real)
    requires 0.0 <= p <= q <= 1.0
    ensures AtLeast(k, n, p) <= AtLeast(k, n, q)
    decreases n
  {
    hide AtLeast;
    if n == 0 {
      TailEnds(k, 0, p);
      TailEnds(k, 0, q);
    } else {
      TailMonotone(k - 1, n - 1, p, q);
      TailMonotone(k, n - 1, p, q);
      TailAntitone(k - 1, n - 1, q);
      TailUnfold(k, n, p);
      TailUnfold(k, n, q);
      var a, b := AtLeast(k - 1, n - 1, q), AtLeast(k, n - 1, q);
      MixMono(p, 1.0 - p, AtLeast(k - 1, n - 1, p), AtLeast(k, n - 1, p), a, b);
      Shift(p, q, a, b);
    }
  }

  /** ... and it strictly grows while the event is neither certain nor impossible. */
  lemma {:induction false} TailStrict(k: int, n: nat, p: real, q: real)
    requires 0.0 <= p < q <= 1.0 && 1 <= k <= n
    ensures AtLeast(k, n, p) < AtLeast(k, n, q)
    decreases n
  {
    hide AtLeast;
    if k == n {
      AllSucceed(n, p);
      AllSucceed(n, q);
      PowStrict(p, q, n);
    } else {
      TailMonotone(k - 1, n - 1, p, q);
      TailStrict(k, n - 1, p, q);
      TailAntitone(k - 1, n - 1, q);
      TailUnfold(k, n, p);
      TailUnfold(k, n, q);
      var a, b := AtLeast(k - 1, n - 1, q), AtLeast(k, n - 1, q);
      MixStrict(p, 1.0 - p, AtLeast(k - 1, n - 1, p), AtLeast(k, n - 1, p), a, b);
      Shift(p, q, a, b);
    }
  }

  lemma {:induction false} AllSucceed(n: nat, p: real)
    ensures AtLeast(n, n, p) == Pow(p, n)
  {
    hide AtLeast;
    if n == 0 {
      TailEnds(0, 0, p);
    } else {
      AllSucceed(n - 1, p);
      TailEnds(n, n - 1, p);
      TailUnfold(n, n, p);
    }
  }

  /** More trials for the same target, or one success more on one trial more. */
  lemma TailMoreTrials(k: int, n: nat, p: real)
    requires 0.0 <= p <= 1.0
    ensures AtLeast(k, n, p) <= AtLeast(k, n + 1, p)
    ensures AtLeast(k + 1, n + 1, p) <= AtLeast(k, n, p)
  {
    hide AtLeast;
    var lower, same, higher := AtLeast(k + 1, n, p), AtLeast(k, n, p), AtLeast(k - 1, n, p);
    TailAntitone(k - 1, n, p);
    TailAntitone(k, n, p);
    TailUnfold(k, n + 1, p);
    TailUnfold(k + 1, n + 1, p);
    Mix(p, 1.0 - p, higher, same, same, higher);
    Mix(p, 1.0 - p, same, lower, lower, same);
  }

  /** `_log_binom_tail_ge`, with the running log-sum-exp read as the running sum it represents. */
  method BinomTailGe(k: int, n: nat, p: real) returns (total: real)
    ensures p <= 0.0 ==> total == AtLeast(k, n, 0.0) == if k <= 0 then 1.0 else 0.0
    ensures 0.0 < p < 1.0 ==> total == AtLeast(k, n, p)
    ensures p >= 1.0 ==> total == AtLeast(k, n, 1.0) == if k <= n then 1.0 else 0.0
  {
    TailAtCertainty(k, n);
    if p <= 0.0 { return if k <= 0 then 1.0 else 0.0; }
    if p >= 1.0 { return if k <= n then 1.0 else 0.0; }
    total := 0.0;
    var start := if k > 0 then k else 0;
    var i := start;
    while i <= n
      invariant start <= i
      invariant start <= n ==> i <= n + 1
      invariant total == AtLeast(start, n, p) - AtLeast(i, n, p)
    {
      TermIsExactly(n, i, p);
      TailDifference(i, n, p);
      total := total + Term(n, i, p);
      i := i + 1;
    }
    TailEnds(i, n, p);
    TailEnds(k, n, p);
    TailEnds(start, n, p);
  }
}
