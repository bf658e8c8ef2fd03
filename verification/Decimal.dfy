// Printing and reading decimal numbers.
module Decimal {
  import opened Prelude

  predicate IsDigit(c: char) {
    '0' <= c <= '9'
  }

  predicate AllDigits(s: string) {
    forall i :: 0 <= i < |s| ==> IsDigit(s[i])
  }

  function DigitChar(d: nat): (c: char)
    requires d < 10
    ensures IsDigit(c)
  {
    "0123456789"[d]
  }

  function DigitValue(c: char): (d: nat)
    requires IsDigit(c)
    ensures d < 10 && DigitChar(d) == c
  {
    (c - '0') as nat
  }

  function Digits(n: nat): (s: string)
    ensures |s| > 0 && AllDigits(s)
  {
    if n < 10 then [DigitChar(n)] else Digits(n / 10) + [DigitChar(n % 10)]
  }

  function Value(s: string): nat
    requires AllDigits(s)
  {
    if s == [] then 0 else 10 * Value(Init(s)) + DigitValue(Last(s))
  }

  lemma {:induction false} DigitsRead(n: nat)
    ensures Value(Digits(n)) == n
  {
    if n >= 10 {
      DigitsRead(n / 10);
      assert Init(Digits(n)) == Digits(n / 10);
    } else {
      assert Init(Digits(n)) == [];
    }
  }

  /** At least `width` digits, filled up with zeros on the left; a longer number is not cut. */
  function Padded(n: nat, width: nat): (s: string)
    ensures |s| >= width && |s| > 0 && AllDigits(s)
  {
    ZeroFilled(Digits(n), width)
  }

  function ZeroFilled(s: string, width: nat): (r: string)
    requires AllDigits(s)
    ensures |r| >= width && |r| >= |s| && AllDigits(r)
    decreases width - |s|
  {
    if |s| >= width then s else ZeroFilled("0" + s, width)
  }

  lemma {:induction false} LeadingZero(s: string)
    requires AllDigits(s)
    ensures Value("0" + s) == Value(s)
  {
    if s != [] {
      assert Init("0" + s) == "0" + Init(s) && Last("0" + s) == Last(s);
      LeadingZero(Init(s));
    } else {
      assert Init("0") == [];
    }
  }

  lemma {:induction false} ZeroFilledReads(s: string, width: nat)
    requires AllDigits(s)
    ensures Value(ZeroFilled(s, width)) == Value(s)
    decreases width - |s|
  {
    if |s| < width {
      LeadingZero(s);
      ZeroFilledReads("0" + s, width);
    }
  }

  /** A zero-padded number reads back as the number, so padding never makes two numbers look alike. */
  lemma PaddedReads(n: nat, width: nat)
    ensures Value(Padded(n, width)) == n
  {
    DigitsRead(n);
    ZeroFilledReads(Digits(n), width);
  }

  lemma {:induction false} ZeroValue(s: string)
    requires AllDigits(s) && Value(s) == 0
    ensures forall i :: 0 <= i < |s| ==> s[i] == '0'
  {
    if s != [] { ZeroValue(Init(s)); }
  }

  /** Of two digit strings with one value the longer has only zeros in front of the shorter. */
  lemma {:induction false} SameValue(a: string, b: string)
    requires AllDigits(a) && AllDigits(b) && Value(a) == Value(b) && |a| <= |b|
    ensures b[|b| - |a|..] == a && forall i :: 0 <= i < |b| - |a| ==> b[i] == '0'
  {
    if a == [] {
      ZeroValue(b);
    } else {
      LastDigits(Value(Init(a)), DigitValue(Last(a)), Value(Init(b)), DigitValue(Last(b)));
      SameValue(Init(a), Init(b));
      assert a == Init(a) + [Last(a)] && b == Init(b) + [Last(b)];
    }
  }

  lemma LastDigits(x: nat, d: nat, y: nat, e: nat)
    requires d < 10 && e < 10 && 10 * x + d == 10 * y + e
    ensures x == y && d == e
  {
  }

  /** Spelled with exactly `width` digits, or with more and no zero in front. */
  ghost predicate Spells(p: string, n: nat, width: nat) {
    AllDigits(p) && Value(p) == n && (|p| == width || (|p| > width && p[0] != '0'))
  }

  lemma {:induction false} NoZeroInFront(n: nat)
    ensures |Digits(n)| > 1 ==> Digits(n)[0] != '0'
    ensures n > 0 ==> Digits(n)[0] != '0'
  {
    if n >= 10 { NoZeroInFront(n / 10); } else { assert n > 0 ==> DigitValue(DigitChar(n)) == n; }
  }

  lemma {:induction false} FilledLength(s: string, width: nat)
    requires AllDigits(s)
    ensures |ZeroFilled(s, width)| == if |s| < width then width else |s|
    ensures |s| >= width ==> ZeroFilled(s, width) == s
    decreases width - |s|
  {
    if |s| < width { FilledLength("0" + s, width); }
  }

  /** Padding gives the one such spelling. */
  lemma PaddedSpells(p: string, n: nat, width: nat)
    requires width > 0
    ensures Spells(p, n, width) <==> p == Padded(n, width)
  {
    var q := Padded(n, width);
    PaddedReads(n, width);
    FilledLength(Digits(n), width);
    NoZeroInFront(n);
    if Spells(p, n, width) {
      if |p| <= |q| { SameValue(p, q); } else { SameValue(q, p); }
    }
  }

  /** Where a run of digits ends is decided by the first other character. */
  lemma DigitRunEnds(a: string, b: string, x: string, y: string)
    requires AllDigits(a) && AllDigits(b) && a + x == b + y
    requires x != [] && !IsDigit(x[0]) && y != [] && !IsDigit(y[0])
    ensures a == b && x == y
  {
    var s := a + x;
    assert |a| < |s| && s[|a|] == x[0] && |b| < |s| && s[|b|] == y[0];
    assert forall i :: 0 <= i < |a| ==> IsDigit(s[i]);
    assert forall i :: 0 <= i < |b| ==> s[i] == b[i];
    assert |a| == |b|;
    assert a == s[..|a|] && b == s[..|b|] && x == s[|a|..] && y == s[|b|..];
  }
}
