// Splitting, joining and stripping strings.
module Text {
  import opened Prelude

  function IndexOf(s: string, c: char): (i: nat)
    ensures i <= |s| && (i < |s| ==> s[i] == c)
    ensures forall j :: 0 <= j < i ==> s[j] != c
  {
    if s == [] || s[0] == c then 0 else 1 + IndexOf(s[1..], c)
  }

  /** Always at least one part. */
  function Split(s: string, c: char): (parts: seq<string>)
    ensures parts != []
    decreases |s|
  {
    var i := IndexOf(s, c);
    if i == |s| then [s] else [s[..i]] + Split(s[i + 1..], c)
  }

  function Join(parts: seq<string>, c: char): string {
    if parts == [] then "" else if |parts| == 1 then parts[0] else parts[0] + [c] + Join(parts[1..], c)
  }

  lemma SplitPlain(s: string, c: char)
    requires c !in s
    ensures Split(s, c) == [s]
  {
  }

  lemma SplitHead(a: string, b: string, c: char)
    requires c !in a
    ensures Split(a + [c] + b, c) == [a] + Split(b, c)
  {
    var s := a + [c] + b;
    assert s[|a|] == c;
    assert forall j :: 0 <= j < |a| ==> s[j] == a[j];
    assert IndexOf(s, c) == |a|;
    assert s[..|a|] == a && s[|a| + 1..] == b;
  }

  /** A separator splits a text into the parts on its left and the parts on its right. */
  lemma {:induction false} SplitAround(a: string, b: string, c: char)
    ensures Split(a + [c] + b, c) == Split(a, c) + Split(b, c)
    decreases |a|
  {
    hide Split, IndexOf;
    var i := IndexOf(a, c);
    SplitStep(a, c);
    if i == |a| {
      SplitHead(a, b, c);
    } else {
      var head, rest := a[..i], a[i + 1..];
      SplitAround(rest, b, c);
      assert a == head + [c] + rest;
      SplitHead(head, rest + [c] + b, c);
      Regrouped(head, rest, b, c);
    }
  }

  lemma Regrouped(head: string, rest: string, b: string, c: char)
    ensures (head + [c] + rest) + [c] + b == head + [c] + (rest + [c] + b)
  {
  }

  lemma SplitStep(s: string, c: char)
    ensures var i := IndexOf(s, c);
            c !in s[..i] && Split(s, c) == if i == |s| then [s] else [s[..i]] + Split(s[i + 1..], c)
    ensures IndexOf(s, c) == |s| ==> c !in s
  {
  }

  lemma {:induction false} SplitJoin(parts: seq<string>, c: char)
    requires parts != [] && forall i :: 0 <= i < |parts| ==> c !in parts[i]
    ensures Split(Join(parts, c), c) == parts
  {
    if |parts| == 1 {
      SplitPlain(parts[0], c);
    } else {
      SplitJoin(parts[1..], c);
      SplitHead(parts[0], Join(parts[1..], c), c);
    }
  }

  ghost predicate Within(a: string, b: string) {
    forall c :: c in a ==> c in b
  }

  /** The parts lack the separator and hold only characters of the text. */
  lemma {:induction false} SplitParts(s: string, c: char)
    ensures forall i :: 0 <= i < |Split(s, c)| ==> c !in Split(s, c)[i] && Within(Split(s, c)[i], s)
    decreases |s|
  {
    var i := IndexOf(s, c);
    if i < |s| { SplitParts(s[i + 1..], c); }
  }

  predicate IsSpace(c: char) {
    var n := c as int;
    9 <= n <= 13 || 28 <= n <= 32 || n == 0x85 || n == 0xA0 || n == 0x1680 || 0x2000 <= n <= 0x200A
    || n == 0x2028 || n == 0x2029 || n == 0x202F || n == 0x205F || n == 0x3000
  }

  lemma SpacesAre(c: char)
    ensures IsSpace(c)
            <==> c as int in {9, 10, 11, 12, 13, 28, 29, 30, 31, 32, 133, 160, 5760, 8192, 8193, 8194, 8195, 8196, 8197,
                              8198, 8199, 8200, 8201, 8202, 8232, 8233, 8239, 8287, 12288}
  {
  }

  function Strip(s: string): string {
    if s == [] then s
    else if IsSpace(s[0]) then Strip(s[1..])
    else if IsSpace(Last(s)) then Strip(Init(s))
    else s
  }

  predicate Tight(s: string) {
    s == [] || (!IsSpace(s[0]) && !IsSpace(Last(s)))
  }

  lemma {:induction false} StripIsTight(s: string)
    ensures Tight(Strip(s)) && Within(Strip(s), s)
  {
    if s != [] {
      if IsSpace(s[0]) { StripIsTight(s[1..]); } else if IsSpace(Last(s)) { StripIsTight(Init(s)); }
    }
  }

  lemma TightStrips(s: string)
    requires Tight(s)
    ensures Strip(s) == s
  {
  }

  /** Order of strings by code points, as sorting uses it. */
  predicate Before(a: string, b: string) {
    if b == [] then false
    else if a == [] then true
    else a[0] < b[0] || (a[0] == b[0] && Before(a[1..], b[1..]))
  }

  lemma {:induction false} BeforeTotal(a: string, b: string)
    ensures a == b || Before(a, b) || Before(b, a)
    ensures !(Before(a, b) && Before(b, a)) && (Before(a, b) ==> a != b)
  {
    if a != [] && b != [] {
      BeforeTotal(a[1..], b[1..]);
      assert a == [a[0]] + a[1..] && b == [b[0]] + b[1..];
    }
  }

  lemma BeforeTransitive(a: string, b: string, c: string)
    requires Before(a, b) && Before(b, c)
    ensures Before(a, c)
  {
  }

  /** The parts that are not blank, stripped. */
  function TagList(parts: seq<string>): seq<string> {
    if parts == [] then []
    else TagList(Init(parts)) + (if Strip(Last(parts)) == "" then [] else [Strip(Last(parts))])
  }

  lemma {:induction false} TagListHolds(parts: seq<string>, t: string)
    requires t in TagList(parts)
    ensures t != [] && Tight(t) && exists part :: part in parts && Within(t, part)
  {
    if t in TagList(Init(parts)) {
      TagListHolds(Init(parts), t);
    } else {
      StripIsTight(Last(parts));
      assert Last(parts) in parts && Within(t, Last(parts));
    }
  }
}
