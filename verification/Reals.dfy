// Powers and the few facts about products of reals that the statistics need.
module Reals {

  function Pow(x: real, n: nat): real {
    if n == 0 then 1.0 else x * Pow(x, n - 1)
  }

  lemma PowUnfold(x: real, n: nat)
    ensures Pow(x, n) == if n == 0 then 1.0 else x * Pow(x, n - 1)
  {
  }

  lemma {:induction false} PowStrict(x: real, y: real, n: nat)
    requires 0.0 <= x < y
    ensures 0.0 <= Pow(x, n) <= Pow(y, n) && 0.0 < Pow(y, n)
    ensures n > 0 ==> Pow(x, n) < Pow(y, n)
  {
    hide Pow;
    PowUnfold(x, n);
    PowUnfold(y, n);
    if n > 0 {
      PowStrict(x, y, n - 1);
      var u, v := Pow(x, n - 1), Pow(y, n - 1);
      MulMono(x, 0.0, u);
      MulMono(x, u, v);
      MulStrict(v, x, y);
    }
  }

  /** A convex combination stays between the bounds of its parts. */
  lemma Mix(p: real, q: real, a: real, b: real, lo: real, hi: real)
    requires 0.0 <= p && 0.0 <= q && p + q == 1.0 && lo <= a <= hi && lo <= b <= hi
    ensures lo <= p * a + q * b <= hi
  {
    MixMono(p, q, lo, lo, a, b);
    MixMono(p, q, a, b, hi, hi);
    assert p * lo + q * lo == (p + q) * lo == lo;
    assert p * hi + q * hi == (p + q) * hi == hi;
  }

  lemma MixMono(p: real, q: real, a: real, b: real, a': real, b': real)
    requires 0.0 <= p && 0.0 <= q && a <= a' && b <= b'
    ensures p * a + q * b <= p * a' + q * b'
  {
    MulMono(p, a, a');
    MulMono(q, b, b');
  }

  lemma MixStrict(p: real, q: real, a: real, b: real, a': real, b': real)
    requires 0.0 <= p && 0.0 < q && a <= a' && b < b'
    ensures p * a + q * b < p * a' + q * b'
  {
    MulMono(p, a, a');
    MulStrict(q, b, b');
  }

  lemma MulMono(q: real, b: real, b': real)
    requires 0.0 <= q && b <= b'
    ensures q * b <= q * b'
  {
  }

  lemma MulStrict(q: real, b: real, b': real)
    requires 0.0 < q && b < b'
    ensures q * b < q * b'
  {
  }

  /** Moving weight onto the larger part raises a convex combination. */
  lemma Shift(p: real, q: real, a: real, b: real)
    requires p <= q && b <= a
    ensures p * a + (1.0 - p) * b <= q * a + (1.0 - q) * b
  {
    var d, e := q - p, a - b;
    NonNegative(d, e);
    assert d * e == q * a - q * b - p * a + p * b;
  }

  lemma NonNegative(d: real, e: real)
    requires 0.0 <= d && 0.0 <= e
    ensures 0.0 <= d * e
  {
  }

  /** Python's `int` of a float: towards zero. */
  function Truncate(x: real): int {
    if x >= 0.0 then x.Floor else -((-x).Floor)
  }

  /** Nearest integer that is no further from zero. */
  lemma TruncateIs(x: real)
    ensures x >= 0.0 ==> Truncate(x) as real <= x < Truncate(x) as real + 1.0
    ensures x < 0.0 ==> Truncate(x) as real - 1.0 < x <= Truncate(x) as real
  {
  }

  lemma TruncateStays(r: real, low: int, high: int)
    requires low as real <= r <= high as real
    ensures low <= Truncate(r) <= high
  {
  }

  /** To the nearest integer, halves to the even one. */
  function Round(x: real): int {
    var down := x.Floor;
    var rest := x - down as real;
    if rest < 0.5 || (rest == 0.5 && down % 2 == 0) then down else down + 1
  }

  /** No integer is nearer, and of two nearest ones the even one is taken. */
  lemma RoundIsNearest(x: real)
    ensures -0.5 <= Round(x) as real - x <= 0.5
    ensures Round(x) as real - x == 0.5 || Round(x) as real - x == -0.5 ==> Round(x) % 2 == 0
  {
  }

  lemma RoundExact(x: real)
    ensures Round(x) as real == x <==> x == x.Floor as real
    ensures x >= 0.0 ==> Round(x) >= 0
  {
  }

  function TwoTo(n: nat): (p: nat)
    ensures p > 0
  {
    if n == 0 then 1 else 2 * TwoTo(n - 1)
  }

  /** 2^1024 - 2^970: halfway between the greatest float and the next power of two. */
  const FLOAT_LIMIT: int := TwoTo(970) * (TwoTo(54) - 1)

  /** Turning such an integer into a float raises an OverflowError. */
  predicate Overflows(n: int) {
    n >= FLOAT_LIMIT || n <= -FLOAT_LIMIT
  }

  lemma {:induction false} PowersAdd(m: nat, n: nat)
    ensures TwoTo(m + n) == TwoTo(m) * TwoTo(n)
  {
    if m > 0 {
      PowersAdd(m - 1, n);
      Regroup(TwoTo(m - 1), TwoTo(n));
    }
  }

  lemma Regroup(a: nat, b: nat)
    ensures 2 * (a * b) == (2 * a) * b
  {
  }

  lemma FloatLimitIs()
    ensures FLOAT_LIMIT == TwoTo(1024) - TwoTo(970)
  {
    hide TwoTo;
    PowersAdd(970, 54);
    Spread(TwoTo(970), TwoTo(54));
  }

  lemma Spread(a: nat, b: nat)
    ensures a * (b - 1) == a * b - a
  {
  }
}
