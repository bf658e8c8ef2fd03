// Reading and printing the numbers of a setting.
module Numerals {
  import opened Prelude
  import opened Reals
  import opened Decimal
  import opened Text

  /** Digits with single underscores between them. */
  predicate DigitPart(s: string) {
    && s != [] && IsDigit(s[0]) && IsDigit(Last(s))
    && (forall i :: 0 <= i < |s| ==> IsDigit(s[i]) || s[i] == '_')
    && (forall i :: 0 <= i < |s| - 1 ==> s[i] != '_' || s[i + 1] != '_')
  }

  function Bare(s: string): string {
    if s == [] then [] else if IsDigit(Last(s)) then Bare(Init(s)) + [Last(s)] else Bare(Init(s))
  }

  lemma DigitsAppend(s: string, c: char)
    ensures AllDigits(s + [c]) <==> AllDigits(s) && IsDigit(c)
  {
    assert AllDigits(s + [c]) ==> IsDigit((s + [c])[|s|]);
    assert forall i :: 0 <= i < |s| ==> (s + [c])[i] == s[i];
  }

  lemma {:induction false} BareIsDigits(s: string)
    ensures AllDigits(Bare(s)) && (AllDigits(s) ==> Bare(s) == s)
  {
    hide AllDigits, IsDigit;
    if s == [] {
      NoDigits();
    } else {
      BareIsDigits(Init(s));
      DigitsAppend(Init(s), Last(s));
      DigitsAppend(Bare(Init(s)), Last(s));
      assert s == Init(s) + [Last(s)];
    }
  }

  lemma NoDigits()
    ensures AllDigits([])
  {
  }

  function DigitsIn(s: string): (r: string)
    ensures AllDigits(r)
  {
    BareIsDigits(s);
    Bare(s)
  }

  predicate Signed(s: string) {
    s != [] && (s[0] == '-' || s[0] == '+')
  }

  function Body(s: string): string {
    if Signed(s) then s[1..] else s
  }

  function Sign(s: string): int {
    if s != [] && s[0] == '-' then -1 else 1
  }

  /** Python's `int` of a string; None is a ValueError. */
  function ReadInt(s: string): Option<int> {
    var t := Strip(s);
    if DigitPart(Body(t)) then Some(Sign(t) * Value(DigitsIn(Body(t)))) else None
  }

  datatype Float = Finite(value: real) | Infinite(negative: bool) | Nan

  function Lower(s: string): string {
    seq(|s|, i requires 0 <= i < |s| => if 'A' <= s[i] <= 'Z' then (s[i] - 'A' + 'a') else s[i])
  }

  /** Where the exponent starts. */
  function ExponentAt(s: string): nat {
    var e, E := IndexOf(s, 'e'), IndexOf(s, 'E');
    if e < E then e else E
  }

  function PowerOfTen(n: int): real {
    if n >= 0 then TenTo(n) else 1.0 / TenTo(-n)
  }

  function TenTo(n: nat): (r: real)
    ensures r > 0.0
  {
    PowStrict(0.0, 10.0, n);
    Pow(10.0, n)
  }

  predicate Mantissa(s: string) {
    var dot := IndexOf(s, '.');
    if dot == |s| then DigitPart(s)
    else
      var whole, rest := s[..dot], s[dot + 1..];
      (whole != [] || rest != []) && (whole == [] || DigitPart(whole)) && (rest == [] || DigitPart(rest))
  }

  function MantissaValue(s: string): real {
    var dot := IndexOf(s, '.');
    if dot == |s| then Value(DigitsIn(s)) as real
    else
      var whole, rest := DigitsIn(s[..dot]), DigitsIn(s[dot + 1..]);
      Value(whole + rest) as real / TenTo(|rest|)
  }

  /** Python's `float` of a string, without rounding; None is a ValueError. */
  function ReadFloat(s: string): Option<Float> {
    var t := Strip(s);
    var body, e := Body(t), ExponentAt(Body(t));
    if Lower(body) == "inf" || Lower(body) == "infinity" then Some(Infinite(Sign(t) < 0))
    else if Lower(body) == "nan" then Some(Nan)
    else if !Mantissa(body[..e]) then None
    else if e == |body| then Some(Finite(Sign(t) as real * MantissaValue(body)))
    else
      var exponent := body[e + 1..];
      if !DigitPart(Body(exponent)) then None
          else Some(Finite(Scaled(Sign(t), MantissaValue(body[..e]), Power(exponent))))
  }

  function Scaled(sign: int, mantissa: real, power: real): real {
    sign as real * mantissa * power
  }

  function Power(exponent: string): real {
    PowerOfTen(Sign(exponent) * Value(DigitsIn(Body(exponent))))
  }

  // --- printing --------------------------------------------------------------------------------

  function CentsText(cents: nat): string {
    Digits(cents / 100) + "." + [DigitChar(cents % 100 / 10), DigitChar(cents % 10)]
  }

  /** Printing a float with two decimals. */
  function TwoDecimals(x: Float): string {
    match x
    case Finite(v) =>
      RoundExact(100.0 * v);
      RoundExact(-100.0 * v);
      if v < 0.0 then "-" + CentsText(Round(-100.0 * v)) else CentsText(Round(100.0 * v))
    case Infinite(negative) => if negative then "-inf" else "inf"
    case Nan => "nan"
  }

  // --- what is printed reads back --------------------------------------------------------------

  lemma PlainDigits(s: string)
    requires AllDigits(s) && s != []
    ensures DigitPart(s) && DigitsIn(s) == s && Strip(s) == s && Body(s) == s && Sign(s) == 1
    ensures forall c :: c in s ==> IsDigit(c)
  {
    BareIsDigits(s);
    assert IsDigit(s[0]) && IsDigit(Last(s));
  }

  lemma IntReadsBack(n: nat)
    ensures ReadInt(Digits(n)) == Some(n)
  {
    PlainDigits(Digits(n));
    DigitsRead(n);
  }

  // --- which texts are numbers -----------------------------------------------------------------

  /** Digit groups with underscores between them are what a part of a number is; the underscores mean nothing. */
  lemma {:induction false} GroupsRead(s: string)
    ensures DigitPart(s) <==> AllDigital(Split(s, '_'))
    ensures DigitPart(s) ==> DigitsIn(s) == Flat(Split(s, '_'))
    decreases |s|
  {
    var i := IndexOf(s, '_');
    if i == |s| {
      assert '_' !in s;
      if AllDigits(s) { BareIsDigits(s); }
      assert Split(s, '_') == [s] && [s][0] == s;
      assert Flat([s]) == s;
    } else {
      var head, rest := s[..i], s[i + 1..];
      assert s == head + "_" + rest;
      GroupsRead(rest);
      GroupInFront(head, rest);
      var parts := Split(s, '_');
      assert parts == [head] + Split(rest, '_') && parts[1..] == Split(rest, '_');
      hide DigitPart, Digital;
      FirstDigital(head, Split(rest, '_'));
    }
  }

  predicate AllDigital(parts: seq<string>) {
    forall i :: 0 <= i < |parts| ==> Digital(parts[i])
  }

  lemma FirstDigital(head: string, rest: seq<string>)
    ensures AllDigital([head] + rest) <==> Digital(head) && AllDigital(rest)
  {
    hide Digital;
    var parts := [head] + rest;
    assert forall i :: 0 <= i < |rest| ==> parts[i + 1] == rest[i];
    if AllDigital(parts) {
      assert Digital(parts[0]);
      forall i | 0 <= i < |rest| ensures Digital(rest[i]) { assert Digital(parts[i + 1]); }
    }
  }

  predicate Digital(s: string) {
    s != [] && AllDigits(s)
  }

  function Flat(parts: seq<string>): string {
    if parts == [] then "" else parts[0] + Flat(parts[1..])
  }

  lemma GroupInFront(head: string, rest: string)
    requires '_' !in head
    ensures DigitPart(head + "_" + rest) <==> Digital(head) && DigitPart(rest)
    ensures Digital(head) ==> Bare(head + "_" + rest) == head + Bare(rest)
  {
    hide DigitPart;
    if DigitPart(head + "_" + rest) { GroupSplits(head, rest); }
    if Digital(head) {
      BareInFront(head, rest);
      if DigitPart(rest) { GroupJoins(head, rest); }
    }
  }

  lemma GroupSplits(head: string, rest: string)
    requires '_' !in head && DigitPart(head + "_" + rest)
    ensures Digital(head) && DigitPart(rest)
  {
    var s, n := head + "_" + rest, |head| + 1;
    assert s[|head|] == '_' && head != [];
    assert rest != [] && s[n] == rest[0] && Last(s) == Last(rest);
    forall i | 0 <= i < |head| ensures IsDigit(head[i]) { assert s[i] == head[i] && head[i] in head; }
    forall i | 0 <= i < |rest| ensures IsDigit(rest[i]) || rest[i] == '_' { assert s[n + i] == rest[i]; }
    forall i | 0 <= i < |rest| - 1 ensures rest[i] != '_' || rest[i + 1] != '_' {
      assert s[n + i] == rest[i] && s[n + i + 1] == rest[i + 1];
    }
  }

  lemma GroupJoins(head: string, rest: string)
    requires Digital(head) && DigitPart(rest)
    ensures DigitPart(head + "_" + rest)
  {
    var s, n := head + "_" + rest, |head| + 1;
    assert s[0] == head[0] && Last(s) == Last(rest);
    forall i | 0 <= i < |s| ensures IsDigit(s[i]) || s[i] == '_' {
      if i >= n { assert s[i] == rest[i - n]; }
    }
    forall i | 0 <= i < |s| - 1 ensures s[i] != '_' || s[i + 1] != '_' {
      if i >= n { assert s[i] == rest[i - n] && s[i + 1] == rest[i + 1 - n]; }
      if i == n - 1 { assert s[i + 1] == rest[0]; }
    }
  }

  lemma {:induction false} BareInFront(head: string, rest: string)
    requires AllDigits(head)
    ensures Bare(head + "_" + rest) == head + Bare(rest)
  {
    var s := head + "_" + rest;
    if rest == [] {
      assert Init(s) == head;
      BareIsDigits(head);
    } else {
      assert Init(s) == head + "_" + Init(rest);
      BareInFront(head, Init(rest));
    }
  }

  function After(mark: string, part: Option<string>): string {
    if part.Some? then mark + part.value else ""
  }

  /** Digits, with or without a point in or around them. */
  ghost predicate Pointed(whole: string, fraction: Option<string>) {
    AllDigits(whole) && (fraction.Some? ==> AllDigits(fraction.value)) && whole + After("", fraction) != ""
  }

  lemma MantissaReads(whole: string, fraction: Option<string>)
    requires Pointed(whole, fraction)
    ensures var m, f := whole + After(".", fraction), After("", fraction);
            && Mantissa(m) && MantissaValue(m) == Value(whole + f) as real / TenTo(|f|)
            && m != "" && (forall c :: c in m ==> IsDigit(c) || c == '.')
  {
    hide DigitPart, DigitsIn, IndexOf, Value, TenTo;
    DigitsOrNone(whole);
    if fraction.Some? {
      DigitsOrNone(fraction.value);
      PointAt(whole, fraction.value);
      assert "" + fraction.value == fraction.value;
    } else {
      IndexNone(whole, '.');
      TensAre(0);
      assert whole + "" == whole;
    }
  }

  lemma PointAt(whole: string, f: string)
    requires '.' !in whole
    ensures var m := whole + ("." + f); IndexOf(m, '.') == |whole| && m[..|whole|] == whole && m[|whole| + 1..] == f
  {
    assert whole + ("." + f) == whole + ['.'] + f;
    IndexIs(whole, '.', f);
  }

  lemma DigitsOrNone(s: string)
    requires AllDigits(s)
    ensures DigitsIn(s) == s && (s != "" ==> DigitPart(s)) && forall c :: c in s ==> IsDigit(c)
  {
    BareIsDigits(s);
    if s != [] { PlainDigits(s); }
  }

  lemma TensAre(n: nat)
    ensures TenTo(0) == 1.0 && TenTo(n + 1) == 10.0 * TenTo(n)
  {
  }

  lemma FloatText(sign: string, whole: string, fraction: Option<string>, mark: char, esign: string,
                  exponent: Option<string>)
    requires Pointed(whole, fraction) && sign in {"", "+", "-"} && esign in {"", "+", "-"} && mark in {'e', 'E'}
    requires exponent.Some? ==> Digital(exponent.value)
    ensures var m := whole + After(".", fraction);
            var s := if sign == "-" then -1 else 1;
            var read := ReadFloat(sign + (m + After([mark] + esign, exponent)));
            && (exponent.None? ==> read == Some(Finite(if sign == "-" then -MantissaValue(m) else MantissaValue(m))))
            && (exponent.Some? ==> read == Some(Finite(Scaled(s, MantissaValue(m), Power(esign + exponent.value)))))
  {
    hide Strip, Body, Sign, ExponentAt, Lower, Mantissa, MantissaValue, DigitPart, DigitsIn, TenTo, Power, Scaled;
    hide After, Value, Pointed;
    var m := whole + After(".", fraction);
    MantissaReads(whole, fraction);
    NumberShape(sign, m, mark, esign, exponent);
    var body := m + After([mark] + esign, exponent);
    if exponent.None? {
      assert body == body[..|m|];
      SignScales(sign == "-", MantissaValue(m), 1.0, if sign == "-" then -MantissaValue(m) else MantissaValue(m));
    } else {
      ExponentReads(esign, exponent.value);
      ReadsExponent(sign + body, body, m, esign + exponent.value);
    }
  }

  /**
   * A number as it is written: a sign or none, digits with a point or none, and an exponent with a sign or none. It
   * reads as the digits, scaled by the places behind the point and by the exponent.
   */
  lemma FloatReads(sign: string, whole: string, fraction: Option<string>, mark: char, esign: string,
                   exponent: Option<string>, v: real, power: real, x: real)
    requires Pointed(whole, fraction) && sign in {"", "+", "-"} && esign in {"", "+", "-"} && mark in {'e', 'E'}
    requires exponent.Some? ==> Digital(exponent.value)
    requires IsShifted(v, whole, After("", fraction)) && IsPower(power, esign, exponent)
    requires IsProduct(x, sign == "-", v, power)
    ensures ReadFloat(sign + (whole + After(".", fraction) + After([mark] + esign, exponent))) == Some(Finite(x))
  {
    hide ReadFloat, MantissaValue, Mantissa, Power, TenTo, Value, Scaled, IsShifted, IsPower, IsProduct, IsDigit;
    FloatText(sign, whole, fraction, mark, esign, exponent);
    MantissaReads(whole, fraction);
    ShiftedIs(v, whole, After("", fraction));
    SignScales(sign == "-", v, power, x);
    if exponent.Some? { PowerReads(esign, exponent.value, power); } else { NoPower(power, esign); }
  }

  /** The digits, with the last ones behind the point. */
  ghost predicate IsShifted(v: real, whole: string, fraction: string)
    requires AllDigits(whole + fraction)
  {
    v * TenTo(|fraction|) == Value(whole + fraction) as real
  }

  ghost predicate IsPower(power: real, esign: string, exponent: Option<string>)
    requires exponent.Some? ==> Digital(exponent.value)
  {
    match exponent
    case None => power == 1.0
    case Some(digits) => if esign == "-" then power * TenTo(Value(digits)) == 1.0 else power == TenTo(Value(digits))
  }

  ghost predicate IsProduct(x: real, negative: bool, v: real, power: real) {
    x == (if negative then -v else v) * power
  }

  lemma ShiftedIs(v: real, whole: string, fraction: string)
    requires AllDigits(whole + fraction) && IsShifted(v, whole, fraction)
    ensures Value(whole + fraction) as real / TenTo(|fraction|) == v
  {
    hide TenTo, Value;
    QuotientIs(v, Value(whole + fraction) as real, TenTo(|fraction|));
  }

  lemma NoPower(power: real, esign: string)
    requires IsPower(power, esign, None)
    ensures power == 1.0
  {
  }

  lemma PowerReads(esign: string, digits: string, power: real)
    requires esign in {"", "+", "-"} && Digital(digits)
    requires IsPower(power, esign, Some(digits))
    ensures Power(esign + digits) == power
  {
    hide Power, TenTo, Value;
    ExponentReads(esign, digits);
    if esign == "-" { QuotientIs(power, 1.0, TenTo(Value(digits))); }
  }

  /** Digits alone are a whole number, for `float` and, after a sign or none, for `int`. */
  lemma DigitsReadBack(n: nat)
    ensures ReadFloat(Digits(n)) == Some(Finite(n as real))
    ensures ReadInt(Digits(n)) == ReadInt("+" + Digits(n)) == Some(n) && ReadInt("-" + Digits(n)) == Some(-(n as int))
  {
    hide ReadFloat, ReadInt, Digits, Value, TenTo;
    var s := Digits(n);
    DigitsRead(n);
    TensAre(0);
    assert s + "" == s && "" + s == s;
    FloatReads("", s, None, 'e', "", None, n as real, 1.0, n as real);
    SignedDigits("", s);
    SignedDigits("-", s);
    SignedDigits("+", s);
  }

  lemma SignedDigits(sign: string, s: string)
    requires sign in {"", "+", "-"} && Digital(s)
    ensures ReadInt(sign + s) == Some((if sign == "-" then -1 else 1) * Value(s))
  {
    PlainDigits(s);
    SignedShape(sign, s);
    hide Strip, Body, Sign, DigitPart, DigitsIn, Value;
  }

  lemma NameReads(t: string, body: string)
    requires Strip(t) == t && Body(t) == body
    ensures Lower(body) == "inf" || Lower(body) == "infinity" ==> ReadFloat(t) == Some(Infinite(Sign(t) < 0))
    ensures Lower(body) == "nan" ==> ReadFloat(t) == Some(Nan)
  {
    hide Strip, Body, Lower, Sign, ExponentAt, Mantissa, MantissaValue, DigitPart;
    assert "nan"[0] != "inf"[0] && "nan"[0] != "infinity"[0];
  }

  /** The special names, in any case and after a sign. */
  lemma SpecialFloats()
    ensures ReadFloat("Infinity") == Some(Infinite(false)) && ReadFloat("-INF") == Some(Infinite(true))
    ensures ReadFloat("NaN") == Some(Nan)
  {
    hide ReadFloat, Strip, Lower;
    TightStrips("Infinity");
    TightStrips("-INF");
    TightStrips("NaN");
    Lowered();
    assert "-INF"[1..] == "INF";
    NameReads("Infinity", "Infinity");
    NameReads("-INF", "INF");
    NameReads("NaN", "NaN");
  }

  lemma Lowered()
    ensures Lower("Infinity") == "infinity" && Lower("INF") == "inf" && Lower("NaN") == "nan"
  {
  }

  lemma QuotientIs(q: real, a: real, b: real)
    requires q * b == a && b > 0.0
    ensures a / b == q
  {
  }

  lemma SignScales(negative: bool, v: real, power: real, x: real)
    requires IsProduct(x, negative, v, power)
    ensures Scaled(if negative then -1 else 1, v, power) == x
    ensures (if negative then -1 else 1) as real * v == if negative then -v else v
    ensures power == 1.0 ==> x == if negative then -v else v
  {
  }

  lemma ReadsExponent(t: string, body: string, m: string, exponent: string)
    requires Strip(t) == t && Body(t) == body && ExponentAt(body) == |m| < |body|
    requires body[..|m|] == m && body[|m| + 1..] == exponent
    requires Lower(body) != "inf" && Lower(body) != "infinity" && Lower(body) != "nan"
    requires Mantissa(m) && DigitPart(Body(exponent))
    ensures ReadFloat(t) == Some(Finite(Scaled(Sign(t), MantissaValue(m), Power(exponent))))
  {
    hide Strip, Body, Sign, ExponentAt, Lower, Mantissa, MantissaValue, DigitPart, Power, Scaled;
  }

  lemma NumberShape(sign: string, m: string, mark: char, esign: string, exponent: Option<string>)
    requires sign in {"", "+", "-"} && esign in {"", "+", "-"} && mark in {'e', 'E'}
    requires m != "" && (forall c :: c in m ==> IsDigit(c) || c == '.')
    requires exponent.Some? ==> Digital(exponent.value)
    ensures var body := m + After([mark] + esign, exponent);
            var t := sign + body;
            && Strip(t) == t && Body(t) == body && Sign(t) == (if sign == "-" then -1 else 1)
            && ExponentAt(body) == |m| && body[..|m|] == m
            && (exponent.None? <==> |m| == |body|) && (exponent.Some? ==> body[|m| + 1..] == esign + exponent.value)
            && Lower(body) != "inf" && Lower(body) != "infinity" && Lower(body) != "nan"
  {
    hide Strip, Body, Sign, ExponentAt, Lower, IsSpace;
    var e := After([mark] + esign, exponent);
    if exponent.Some? {
      assert forall c :: c in esign ==> c == '+' || c == '-';
      forall c | c in exponent.value ensures IsDigit(c) { DigitsOrNone(exponent.value); }
      assert e == [mark] + (esign + exponent.value) && Last(m + e) == Last(exponent.value);
      MarkFound(m, mark, esign + exponent.value, true);
      assert (m + e)[|m| + 1..] == esign + exponent.value;
    } else {
      assert m + e == m;
      MarkFound(m, mark, "", false);
    }
    assert m[0] in m && Last(m) in m && (m + e)[0] == m[0];
    SignedShape(sign, m + e);
  }

  lemma SignedShape(sign: string, body: string)
    requires sign in {"", "+", "-"} && body != ""
    requires (IsDigit(body[0]) || body[0] == '.') && (IsDigit(Last(body)) || Last(body) == '.')
    ensures var t := sign + body;
            Strip(t) == t && Body(t) == body && Sign(t) == (if sign == "-" then -1 else 1)
    ensures Lower(body) != "inf" && Lower(body) != "infinity" && Lower(body) != "nan"
  {
    var t := sign + body;
    assert sign == "" ==> t == body;
    assert Last(t) == Last(body) && t[0] == if sign == "" then body[0] else sign[0];
    TightStrips(t);
    assert Lower(body)[0] == body[0];
  }

  lemma MarkFound(m: string, mark: char, rest: string, marked: bool)
    requires (forall c :: c in m ==> IsDigit(c) || c == '.') && mark in {'e', 'E'}
    requires 'e' !in rest && 'E' !in rest
    ensures ExponentAt(if marked then m + ([mark] + rest) else m) == |m|
  {
    var other := if mark == 'e' then 'E' else 'e';
    var s := m + ([mark] + rest);
    assert s == m + [mark] + rest;
    IndexIs(m, mark, rest);
    IndexNone(s, other);
    IndexNone(m, 'e');
    IndexNone(m, 'E');
  }

  lemma ExponentReads(esign: string, digits: string)
    requires esign in {"", "+", "-"} && Digital(digits)
    ensures Body(esign + digits) == digits && DigitPart(digits)
    ensures Power(esign + digits) == if esign == "-" then 1.0 / TenTo(Value(digits)) else TenTo(Value(digits))
  {
    hide DigitPart, Value, DigitsIn, PowerOfTen, Body, Sign, TenTo;
    PlainDigits(digits);
    SignOff(esign, digits);
    SignIs(esign, digits);
    PowersOfTen(Value(digits));
  }

  lemma SignIs(sign: string, digits: string)
    requires IsSign(sign) && Digital(digits)
    ensures Sign(sign + digits) == if sign == "-" then -1 else 1
  {
    assert (sign + digits)[0] == if sign == "" then digits[0] else sign[0];
  }

  lemma PowersOfTen(n: nat)
    ensures PowerOfTen(n) == TenTo(n) && PowerOfTen(-(n as int)) == 1.0 / TenTo(n)
  {
    assert TenTo(0) == 1.0;
  }

  // --- which texts are refused -----------------------------------------------------------------

  ghost predicate IsSign(sign: string) {
    sign == "" || sign == "+" || sign == "-"
  }

  /** Digit groups with single underscores between them. */
  ghost predicate Grouped(s: string) {
    AllDigital(Split(s, '_'))
  }

  lemma BodyIs(t: string)
    ensures exists sign :: IsSign(sign) && t == sign + Body(t)
  {
    if Signed(t) { assert t == [t[0]] + t[1..] && IsSign([t[0]]); } else { assert t == "" + Body(t) && IsSign(""); }
  }

  /** `int` takes exactly the texts that are, without the blanks around them, such digits after a sign or none. */
  lemma IntsAre(s: string)
    ensures ReadInt(s).Some? <==> exists sign, digits :: IsSign(sign) && Grouped(digits) && Strip(s) == sign + digits
  {
    hide DigitPart, Grouped, Strip;
    var t := Strip(s);
    if ReadInt(s).Some? {
      BodyIs(t);
      GroupedIs(Body(t));
      var sign :| IsSign(sign) && t == sign + Body(t);
    }
    if sign, digits :| IsSign(sign) && Grouped(digits) && t == sign + digits {
      GroupedIs(digits);
      SignOff(sign, digits);
    }
  }

  lemma GroupedIs(s: string)
    ensures Grouped(s) <==> DigitPart(s)
  {
    GroupsRead(s);
  }

  lemma SignOff(sign: string, digits: string)
    requires IsSign(sign) && DigitPart(digits)
    ensures Body(sign + digits) == digits
  {
    assert sign == "" ==> sign + digits == digits;
  }

  ghost predicate PointedGroups(m: string) {
    Grouped(m)
    || exists whole, rest :: m == whole + "." + rest && whole + rest != "" && (whole == "" || Grouped(whole))
                             && (rest == "" || Grouped(rest))
  }

  /** With an exponent: a mark, a sign or none, and digits. */
  ghost predicate Exponential(body: string, m: string, mark: char, esign: string, digits: string) {
    && body == m + ([mark] + (esign + digits)) && PointedGroups(m) && (mark == 'e' || mark == 'E')
    && IsSign(esign) && Grouped(digits)
  }

  /** `float` takes no other text than a special name, or such digits with a point or none and an exponent or none. */
  lemma FloatsAre(s: string)
    requires ReadFloat(s).Some?
    ensures exists sign, body ::
              && Strip(s) == sign + body && IsSign(sign)
              && (Lower(body) in {"inf", "infinity", "nan"} || PointedGroups(body)
                  || exists m, mark, esign, digits :: Exponential(body, m, mark, esign, digits))
  {
    hide ReadFloat, Strip, Lower, Mantissa, DigitPart, PointedGroups, Grouped, IsSign, Exponential, Body, ExponentAt;
    FloatShape(s);
    BodyIs(Strip(s));
    var body := Body(Strip(s));
    if Lower(body) !in {"inf", "infinity", "nan"} {
      var e := ExponentAt(body);
      MarkAt(body);
      MantissaIs(body[..e]);
      if e == |body| { assert body[..e] == body; } else { ExponentForm(body, e); }
    }
  }

  lemma FloatShape(s: string)
    requires ReadFloat(s).Some?
    ensures var body := Body(Strip(s));
            var e := ExponentAt(body);
            Lower(body) in {"inf", "infinity", "nan"}
            || (e <= |body| && Mantissa(body[..e]) && (e == |body| || DigitPart(Body(body[e + 1..]))))
  {
    hide Strip, Lower, Mantissa, MantissaValue, Power, Scaled, DigitPart, Body;
  }

  lemma ExponentForm(body: string, e: nat)
    requires e < |body| && (body[e] == 'e' || body[e] == 'E')
    requires PointedGroups(body[..e]) && DigitPart(Body(body[e + 1..]))
    ensures exists m, mark, esign, digits :: Exponential(body, m, mark, esign, digits)
  {
    hide DigitPart, PointedGroups, Grouped, IsSign, Body;
    var x := body[e + 1..];
    BodyIs(x);
    GroupedIs(Body(x));
    var esign :| IsSign(esign) && x == esign + Body(x);
    assert body == body[..e] + ([body[e]] + (esign + Body(x)));
    assert Exponential(body, body[..e], body[e], esign, Body(x));
  }

  lemma MarkAt(body: string)
    ensures var e := ExponentAt(body); e <= |body| && (e < |body| ==> body[e] == 'e' || body[e] == 'E')
  {
  }

  lemma MantissaIs(m: string)
    ensures Mantissa(m) ==> PointedGroups(m)
  {
    hide DigitPart, Grouped;
    var dot := IndexOf(m, '.');
    GroupedIs(m);
    if dot < |m| {
      var whole, rest := m[..dot], m[dot + 1..];
      GroupedIs(whole);
      GroupedIs(rest);
      assert m == whole + "." + rest;
    }
  }

  lemma ValueTwo(s: string, a: char, b: char)
    requires AllDigits(s) && IsDigit(a) && IsDigit(b)
    ensures AllDigits(s + [a, b]) && Value(s + [a, b]) == 100 * Value(s) + 10 * DigitValue(a) + DigitValue(b)
  {
    assert Init(s + [a, b]) == s + [a] && Init(s + [a]) == s;
  }

  lemma DigitCharValue(d: nat)
    requires d < 10
    ensures DigitValue(DigitChar(d)) == d
  {
  }

  lemma IndexIs(a: string, c: char, b: string)
    requires c !in a
    ensures IndexOf(a + [c] + b, c) == |a|
  {
    var s := a + [c] + b;
    assert s[|a|] == c && forall j :: 0 <= j < |a| ==> s[j] == a[j] && a[j] in a;
  }

  lemma IndexNone(a: string, c: char)
    requires c !in a
    ensures IndexOf(a, c) == |a|
  {
  }

  predicate Plain(s: string) {
    s != [] && IsDigit(s[0]) && IsDigit(Last(s)) && forall c :: c in s ==> IsDigit(c) || c == '.'
  }

  lemma CentsArePlain(cents: nat)
    ensures Plain(CentsText(cents))
  {
    var s := CentsText(cents);
    PlainDigits(Digits(cents / 100));
    assert s[0] == Digits(cents / 100)[0];
  }

  lemma PlainShape(s: string)
    requires Plain(s)
    ensures Strip(s) == s && Body(s) == s && Sign(s) == 1 && ExponentAt(s) == |s|
    ensures Lower(s) != "inf" && Lower(s) != "infinity" && Lower(s) != "nan"
  {
    IndexNone(s, 'e');
    IndexNone(s, 'E');
    assert Lower(s)[0] == s[0];
  }

  lemma CentsReadBack(cents: nat)
    ensures ReadFloat(CentsText(cents)) == Some(Finite(cents as real / 100.0))
  {
    hide Strip, Body, Sign, ExponentAt, Lower, Digits, IndexOf, CentsText, Plain, Mantissa, MantissaValue;
    var s := CentsText(cents);
    CentsArePlain(cents);
    PlainShape(s);
    CentsMantissa(cents);
    assert s[..|s|] == s;
  }

  lemma TwoDigitMantissa(whole: string, a: char, b: char)
    requires AllDigits(whole) && whole != [] && IsDigit(a) && IsDigit(b)
    ensures var s := whole + ['.'] + [a, b];
            Mantissa(s) && MantissaValue(s) == Value(whole + [a, b]) as real / 100.0
  {
    var s := whole + ['.'] + [a, b];
    PlainDigits(whole);
    PlainDigits([a, b]);
    hide DigitPart, DigitsIn, IndexOf;
    IndexIs(whole, '.', [a, b]);
    assert s[..|whole|] == whole && s[|whole| + 1..] == [a, b];
    assert TenTo(2) == 100.0 by { assert Pow(10.0, 1) == 10.0; }
  }

  lemma CentsMantissa(cents: nat)
    ensures Mantissa(CentsText(cents)) && MantissaValue(CentsText(cents)) == cents as real / 100.0
  {
    hide Mantissa, MantissaValue, Digits, DigitChar, DigitValue, Value;
    var whole, a, b := Digits(cents / 100), DigitChar(cents % 100 / 10), DigitChar(cents % 10);
    assert CentsText(cents) == whole + ['.'] + [a, b];
    TwoDigitMantissa(whole, a, b);
    CentsValue(cents);
  }

  lemma CentsValue(cents: nat)
    ensures Value(Digits(cents / 100) + [DigitChar(cents % 100 / 10), DigitChar(cents % 10)]) == cents
  {
    hide Digits, DigitChar, DigitValue, Value;
    ValueTwo(Digits(cents / 100), DigitChar(cents % 100 / 10), DigitChar(cents % 10));
    DigitsRead(cents / 100);
    DigitCharValue(cents % 100 / 10);
    DigitCharValue(cents % 10);
    Hundreds(cents);
  }

  lemma Hundreds(n: nat)
    ensures n == 100 * (n / 100) + 10 * (n % 100 / 10) + n % 10
  {
    var q, r := n / 100, n % 100;
    var t, u := r / 10, r % 10;
    assert n == 100 * q + r && r == 10 * t + u;
    LastDigit(n, 10 * q + t, u);
  }

  lemma LastDigit(n: nat, k: nat, u: nat)
    requires n == 10 * k + u && u < 10
    ensures n % 10 == u
  {
  }

  predicate WholeCents(x: Float) {
    x == Infinite(false) || (x.Finite? && 100.0 * x.value == (100.0 * x.value).Floor as real)
  }

  /** A printed bound reads back as itself exactly when it is infinite or a whole number of cents. */
  lemma TwoDecimalsReadBack(x: Float)
    requires x == Infinite(false) || (x.Finite? && x.value > 0.0)
    ensures ReadFloat(TwoDecimals(x)) == Some(x) <==> WholeCents(x)
    ensures ReadFloat(TwoDecimals(x)).Some?
  {
    hide ReadFloat, CentsText;
    match x {
      case Finite(v) =>
        RoundExact(100.0 * v);
        CentsReadBack(Round(100.0 * v));
      case Infinite(_) =>
        InfiniteReadsBack();
    }
  }

  /** Whatever the bound, what is printed reads as the nearest whole number of cents. */
  lemma PrintedCents(v: real) returns (cents: nat)
    requires v > 0.0
    ensures ReadFloat(TwoDecimals(Finite(v))) == Some(Finite(cents as real / 100.0))
    ensures -0.5 <= cents as real - 100.0 * v <= 0.5
  {
    hide ReadFloat, CentsText;
    RoundExact(100.0 * v);
    RoundIsNearest(100.0 * v);
    cents := Round(100.0 * v);
    CentsReadBack(cents);
  }

  lemma NegativePrints(v: real)
    requires v > 0.0
    ensures TwoDecimals(Finite(-v)) == "-" + TwoDecimals(Finite(v))
  {
    hide CentsText;
    assert -100.0 * -v == 100.0 * v;
  }

  lemma InfiniteReadsBack()
    ensures ReadFloat("inf") == Some(Infinite(false))
  {
    assert Strip("inf") == "inf" && Lower("inf") == "inf";
  }
}
