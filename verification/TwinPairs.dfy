// Which paper twin runs beside which live tag: explicit entries first, then one per allowlisted tag.
module TwinPairs {
  import opened Prelude
  import opened Text
  import TwinEpochs

  datatype Config = Config(enabled: bool, liveStrategies: string, suffix: string, entries: string, auto: bool)

  function Suffix(c: Config): string {
    Strip(if c.suffix == "" then "_pt" else c.suffix)
  }

  function LiveTags(c: Config): seq<string> {
    TagList(Split(c.liveStrategies, ','))
  }

  function Clamp(s: string): (r: string)
    ensures |r| <= 24
  {
    if |s| <= 24 then s else s[..24]
  }

  /** An explicit entry; None when it is blank or its two tags collide. */
  function Explicit(raw: string, suffix: string): Option<(string, string)> {
    var part := Strip(raw);
    var colon := IndexOf(part, ':');
    var live := Strip(part[..colon]);
    var named := if colon == |part| then "" else Strip(part[colon + 1..]);
    var twin := Clamp(if named == "" then live + suffix else named);
    if part == "" || live == "" || twin == "" || live == twin then None else Some((live, twin))
  }

  /** The last usable explicit entry of every live tag. */
  function Explicits(raws: seq<string>, suffix: string): map<string, string> {
    if raws == [] then map[]
    else
      match Explicit(Last(raws), suffix)
      case None => Explicits(Init(raws), suffix)
      case Some(p) => Explicits(Init(raws), suffix)[p.0 := p.1]
  }

  function Default(live: string, suffix: string): string {
    Clamp(live + suffix)
  }

  /** The twin of a live tag before the last rule. */
  function Derived(c: Config, live: string): Option<string> {
    var explicit := Explicits(Split(c.entries, ','), Suffix(c));
    if live in explicit then Some(explicit[live])
    else if c.auto && live in LiveTags(c) && Default(live, Suffix(c)) != live then Some(Default(live, Suffix(c)))
    else None
  }

  ghost predicate Ascending(s: seq<string>) {
    forall i, j :: 0 <= i < j < |s| ==> Before(s[i], s[j])
  }

  function Insert(s: seq<string>, x: string): seq<string> {
    if s == [] || Before(Last(s), x) then s + [x] else Insert(Init(s), x) + [Last(s)]
  }

  lemma {:induction false} InsertSorts(s: seq<string>, x: string)
    requires Ascending(s) && x !in s
    ensures Ascending(Insert(s, x))
    ensures forall y :: y in Insert(s, x) <==> y in s || y == x
  {
    if s != [] {
      assert s == Init(s) + [Last(s)];
      BeforeTotal(Last(s), x);
      if Before(Last(s), x) {
        forall i | 0 <= i < |s| ensures Before(s[i], x) {
          if i < |s| - 1 { BeforeTransitive(s[i], Last(s), x); }
        }
      } else {
        InsertSorts(Init(s), x);
        forall y | y in Insert(Init(s), x) ensures Before(y, Last(s)) {
          if y in Init(s) {
            var i :| 0 <= i < |s| - 1 && s[i] == y;
            assert Before(s[i], s[|s| - 1]);
          }
        }
      }
    }
  }

  /** The pair is configured: derived, and its twin is not itself allowlisted. */
  ghost predicate Listed(c: Config, live: string, twin: string) {
    c.enabled && Derived(c, live) == Some(twin) && twin !in LiveTags(c)
  }

  ghost predicate Lists(pairs: seq<(string, string)>, c: Config) {
    && (forall i, j :: 0 <= i < j < |pairs| ==> Before(pairs[i].0, pairs[j].0))
    && (forall live, twin :: (live, twin) in pairs <==> Listed(c, live, twin))
  }

  /** The configured pairs, sorted by live tag. */
  method LivePaperTwinPairs(c: Config) returns (result: seq<(string, string)>)
    ensures Lists(result, c)
  {
    hide Derived, LiveTags, Before, Kept, Lists, Ascending;
    if !c.enabled {
      NoneListed(c);
      return [];
    }
    var live := LiveTags(c);
    var pairs := AllDerived(c);
    var keys := SortedKeys(pairs);
    result := [];
    NothingKept(pairs, live);
    for i := 0 to |keys|
      invariant result == Kept(pairs, keys[..i], live)
    {
      assert Init(keys[..i + 1]) == keys[..i] && Last(keys[..i + 1]) == keys[i];
      KeptNext(pairs, keys[..i + 1], live);
      if pairs[keys[i]] !in live { result := result + [(keys[i], pairs[keys[i]])]; }
    }
    assert keys[..|keys|] == keys;
    KeptIsListed(c, pairs, keys);
  }

  lemma NoneListed(c: Config)
    requires !c.enabled
    ensures Lists([], c)
  {
  }

  lemma KeptIsListed(c: Config, pairs: map<string, string>, keys: seq<string>)
    requires c.enabled && Ascending(keys) && forall k :: k in keys <==> k in pairs
    requires forall t :: Derived(c, t) == if t in pairs then Some(pairs[t]) else None
    ensures Lists(Kept(pairs, keys, LiveTags(c)), c)
  {
    hide Derived, LiveTags, Before, Kept, Ascending;
    KeptHolds(pairs, keys, LiveTags(c));
  }

  /** The pairs of the listed live tags whose twin is not itself allowlisted, in that order. */
  function Kept(pairs: map<string, string>, keys: seq<string>, live: seq<string>): seq<(string, string)>
    requires forall k :: k in keys ==> k in pairs
  {
    if keys == [] then []
    else
      assert Last(keys) in keys;
      assert forall k :: k in Init(keys) ==> k in keys;
      Kept(pairs, Init(keys), live) +
      (if pairs[Last(keys)] in live then [] else [(Last(keys), pairs[Last(keys)])])
  }

  lemma NothingKept(pairs: map<string, string>, live: seq<string>)
    ensures Kept(pairs, [], live) == []
  {
  }

  lemma KeptNext(pairs: map<string, string>, keys: seq<string>, live: seq<string>)
    requires (forall k :: k in keys ==> k in pairs) && keys != []
    ensures (forall k :: k in Init(keys) ==> k in pairs) && Last(keys) in keys
    ensures Kept(pairs, keys, live)
            == Kept(pairs, Init(keys), live)
               + (if pairs[Last(keys)] in live then [] else [(Last(keys), pairs[Last(keys)])])
  {
    assert forall k :: k in Init(keys) ==> k in keys;
  }

  lemma {:induction false} KeptHolds(pairs: map<string, string>, keys: seq<string>, live: seq<string>)
    requires (forall k :: k in keys ==> k in pairs) && Ascending(keys)
    ensures var kept := Kept(pairs, keys, live);
      && (forall t, twin :: (t, twin) in kept <==> t in keys && pairs[t] == twin && twin !in live)
      && (forall i, j :: 0 <= i < j < |kept| ==> Before(kept[i].0, kept[j].0))
  {
    hide Before;
    NothingKept(pairs, live);
    if keys != [] {
      var rest, k := Init(keys), Last(keys);
      KeptNext(pairs, keys, live);
      KeptHolds(pairs, rest, live);
      assert keys == rest + [k];
      KeptBefore(Kept(pairs, rest, live), keys);
    }
  }

  lemma KeptBefore(kept: seq<(string, string)>, keys: seq<string>)
    requires keys != [] && Ascending(keys) && forall t, twin :: (t, twin) in kept ==> t in Init(keys)
    ensures forall i :: 0 <= i < |kept| ==> Before(kept[i].0, Last(keys))
  {
    hide Before;
    forall i | 0 <= i < |kept| ensures Before(kept[i].0, Last(keys)) {
      assert (kept[i].0, kept[i].1) in kept;
      var m :| 0 <= m < |keys| - 1 && Init(keys)[m] == kept[i].0;
      assert keys[m] == kept[i].0;
    }
  }

  /** The dictionary from live tags to twins: explicit entries, then the tags that have none. */
  method AllDerived(c: Config) returns (pairs: map<string, string>)
    ensures forall t :: Derived(c, t) == if t in pairs then Some(pairs[t]) else None
  {
    hide Explicit, Split, Strip;
    var live := LiveTags(c);
    var suffix := Suffix(c);
    var raws := Split(c.entries, ',');
    pairs := map[];
    for i := 0 to |raws|
      invariant pairs == Explicits(raws[..i], suffix)
    {
      assert Init(raws[..i + 1]) == raws[..i] && Last(raws[..i + 1]) == raws[i];
      match Explicit(raws[i], suffix) {
        case None => continue;
        case Some(p) => pairs := pairs[p.0 := p.1];
      }
    }
    assert raws[..|raws|] == raws;
    ghost var explicit := pairs;
    if c.auto {
      for i := 0 to |live|
        invariant forall t :: (t in pairs <==> t in explicit || (t in live[..i] && Default(t, suffix) != t))
        invariant forall t :: t in pairs ==> pairs[t] == if t in explicit then explicit[t] else Default(t, suffix)
      {
        assert live[..i + 1] == live[..i] + [live[i]];
        if live[i] !in pairs {
          var twin := Default(live[i], suffix);
          if twin != live[i] { pairs := pairs[live[i] := twin]; }
        }
      }
      assert live[..|live|] == live;
    }
  }

  method SortedKeys(m: map<string, string>) returns (keys: seq<string>)
    ensures Ascending(keys) && forall k :: k in keys <==> k in m
  {
    keys := [];
    var left := m.Keys;
    while left != {}
      invariant left <= m.Keys && Ascending(keys)
      invariant forall k :: k in keys <==> k in m.Keys - left
    {
      var k :| k in left;
      InsertSorts(keys, k);
      keys := Insert(keys, k);
      left := left - {k};
    }
  }

  // --- what the pairs are for ------------------------------------------------------------------

  lemma {:induction false} ExplicitsHold(raws: seq<string>, suffix: string, live: string)
    requires live in Explicits(raws, suffix)
    ensures live != "" && Explicits(raws, suffix)[live] != live && 0 < |Explicits(raws, suffix)[live]| <= 24
  {
    hide Strip;
    if Explicit(Last(raws), suffix).None? || Explicit(Last(raws), suffix).value.0 != live {
      ExplicitsHold(Init(raws), suffix, live);
    }
  }

  /**
   * A twin is never its own live tag nor any allowlisted tag, fits the strategy column, and a live tag has one twin.
   */
  lemma TwinsAreNotAllowlisted(pairs: seq<(string, string)>, c: Config)
    requires Lists(pairs, c)
    ensures forall p :: p in pairs ==> p.1 != p.0 && p.1 !in LiveTags(c) && |p.1| <= 24
    ensures forall p, q :: p in pairs && q in pairs && p.0 == q.0 ==> p == q
  {
    hide Explicit, Split, Strip, Suffix, LiveTags;
    forall p | p in pairs ensures p.1 != p.0 && p.1 !in LiveTags(c) && |p.1| <= 24 && Derived(c, p.0) == Some(p.1) {
      assert p == (p.0, p.1);
      if p.0 in Explicits(Split(c.entries, ','), Suffix(c)) { ExplicitsHold(Split(c.entries, ','), Suffix(c), p.0); }
    }
  }

  /**
   * The last entry of the setting: "a:b" makes b the twin of a, "a" and "a:" make it the suffixed tag, blanks around
   * the tags and before the comma count nothing, and a twin is cut to 24 characters; a tag is not its own twin.
   */
  lemma LastEntryNames(c: Config, before: string, a: string, b: string)
    requires Plain(a) && (b == "" || Plain(b)) && a != ""
    requires c.entries == before + "," + a + ":" + b || (b == "" && c.entries == before + "," + " " + a)
    ensures var tag := if b == "" then a + Suffix(c) else b;
            var twin := if |tag| <= 24 then tag else tag[..24];
            if a == twin then Derived(c, a) == Derived(c.(entries := before), a)
            else
              && Derived(c, a) == Some(twin)
              && (Listed(c, a, twin) <==> c.enabled && twin !in LiveTags(c))
              && forall live :: live != a ==> Derived(c, live) == Derived(c.(entries := before), live)
  {
    hide Split, Explicit, Explicits, Plain, LiveTags, Suffix, Default;
    var raw := if c.entries == before + "," + a + ":" + b then a + ":" + b else " " + a;
    assert c.entries == before + "," + raw;
    SameSettings(c, before);
    PlainEntry(a, b, raw, Suffix(c));
    EntriesGrow(before, raw, Suffix(c));
  }

  lemma SameSettings(c: Config, entries: string)
    ensures LiveTags(c.(entries := entries)) == LiveTags(c) && Suffix(c.(entries := entries)) == Suffix(c)
  {
  }

  lemma EntriesGrow(before: string, raw: string, suffix: string)
    requires ',' !in raw
    ensures Explicits(Split(before + "," + raw, ','), suffix)
            == match Explicit(raw, suffix)
               case None => Explicits(Split(before, ','), suffix)
               case Some(p) => Explicits(Split(before, ','), suffix)[p.0 := p.1]
  {
    hide Split, Explicit;
    SplitAround(before, raw, ',');
    SplitPlain(raw, ',');
    assert before + "," + raw == before + [','] + raw;
    assert Init(Split(before, ',') + [raw]) == Split(before, ',');
  }

  /** A tag without an entry gets the suffixed tag, cut to 24 characters, when it is allowlisted and that is on. */
  lemma AutoTwin(c: Config, live: string)
    requires NamedTwin(c, live).None?
    ensures var twin := if |live + Suffix(c)| <= 24 then live + Suffix(c) else (live + Suffix(c))[..24];
            Derived(c, live) == if c.auto && live in LiveTags(c) && twin != live then Some(twin) else None
    ensures c.suffix == "" ==> Suffix(c) == "_pt"
    ensures c.suffix != "" && Tight(c.suffix) ==> Suffix(c) == c.suffix
  {
    hide Explicits, Split, LiveTags;
  }

  /** A tag without separators, and without blanks around it. */
  ghost predicate Plain(tag: string) {
    Tight(tag) && ',' !in tag && ':' !in tag
  }

  lemma PlainEntry(a: string, b: string, raw: string, suffix: string)
    requires Plain(a) && (b == "" || Plain(b)) && a != ""
    requires raw == a + ":" + b || (b == "" && raw == " " + a)
    ensures ',' !in raw
    ensures var tag := if b == "" then a + suffix else b;
            var twin := if |tag| <= 24 then tag else tag[..24];
            Explicit(raw, suffix) == if a == twin then None else Some((a, twin))
  {
    hide Strip, IndexOf, IsSpace;
    TightStrips(a);
    TightStrips(b);
    if raw == a + ":" + b {
      TypedRaw(a, b, raw);
    } else {
      BlankInFront(a);
      NoColonAt(a);
    }
  }

  lemma TypedRaw(a: string, b: string, raw: string)
    requires Plain(a) && (b == "" || Plain(b)) && a != "" && raw == a + ":" + b
    ensures Strip(raw) == raw && IndexOf(raw, ':') == |a| && raw[..|a|] == a && raw[|a| + 1..] == b
  {
    assert raw[0] == a[0] && Last(raw) == if b == "" then ':' else Last(b);
    TightStrips(raw);
    assert raw[|a|] == ':' && forall i :: 0 <= i < |a| ==> raw[i] == a[i] && a[i] in a;
  }

  lemma NoColonAt(a: string)
    requires ':' !in a
    ensures IndexOf(a, ':') == |a| && a[..|a|] == a
  {
  }

  lemma BlankInFront(a: string)
    ensures Strip(" " + a) == Strip(a)
  {
    assert (" " + a)[1..] == a;
  }

  // --- the executor's allowlist ----------------------------------------------------------------

  ghost predicate IsTwin(c: Config, tag: string) {
    exists live :: Listed(c, live, tag)
  }

  /** Some allowlisted tag is a prefix, and it is nobody's twin. */
  ghost predicate MayTrade(c: Config, tag: string) {
    TwinEpochs.Armed(LiveTags(c), tag) && !IsTwin(c, tag)
  }

  /** `LiveExecutor._allowed`. */
  method Allowed(c: Config, tag: string) returns (ok: bool)
    ensures ok <==> MayTrade(c, tag)
  {
    hide Derived, LiveTags;
    var pairs := LivePaperTwinPairs(c);
    TwinsIn(pairs, c, tag);
    if tag in set p | p in pairs :: p.1 { return false; }
    ok := TwinEpochs.Armed(LiveTags(c), tag);
  }

  lemma TwinsIn(pairs: seq<(string, string)>, c: Config, tag: string)
    requires Lists(pairs, c)
    ensures IsTwin(c, tag) <==> exists p :: p in pairs && p.1 == tag
  {
    hide Derived, LiveTags;
    if live :| Listed(c, live, tag) { assert (live, tag) in pairs; }
    if p :| p in pairs && p.1 == tag { assert p == (p.0, p.1); }
  }

  /** No configured twin passes, however it was named, and every allowlisted tag does. */
  lemma TwinsNeverTrade(pairs: seq<(string, string)>, c: Config)
    requires Lists(pairs, c)
    ensures forall p :: p in pairs ==> !MayTrade(c, p.1)
    ensures forall t :: t in LiveTags(c) ==> MayTrade(c, t)
  {
    hide Derived, LiveTags;
    forall p | p in pairs ensures !MayTrade(c, p.1) {
      TwinsIn(pairs, c, p.1);
    }
    forall t | t in LiveTags(c) ensures MayTrade(c, t) {
      OwnPrefix(LiveTags(c), t);
    }
  }

  lemma OwnPrefix(tags: seq<string>, t: string)
    requires t in tags
    ensures forall longer :: t <= longer ==> TwinEpochs.Armed(tags, longer)
  {
    var i :| 0 <= i < |tags| && tags[i] == t;
  }

  /**
   * Prefixes alone would not keep it out: a suffixed twin begins with its live tag unless that fills the column. So the
   * tag is refused exactly while the pair is configured, and passes again once twins are switched off.
   */
  lemma SuffixedTwinIsRefused(c: Config, live: string)
    requires live in LiveTags(c) && c.auto && NamedTwin(c, live).None? && Default(live, Suffix(c)) != live
    ensures var twin := Default(live, Suffix(c));
      && (live <= twin <==> |live| <= 24)
      && (|live| <= 24 ==> TwinEpochs.Armed(LiveTags(c), twin))
      && (MayTrade(c, twin) <==> TwinEpochs.Armed(LiveTags(c), twin) && (!c.enabled || twin in LiveTags(c)))
  {
    hide Explicits, Split, Suffix, LiveTags;
    var twin := Default(live, Suffix(c));
    if |live| <= 24 {
      assert live <= live + Suffix(c);
      OwnPrefix(LiveTags(c), live);
    }
    assert Derived(c, live) == Some(twin);
    assert c.enabled && twin !in LiveTags(c) ==> Listed(c, live, twin);
  }

  // --- when two live tags get one twin ---------------------------------------------------------

  /**
   * Two tags of which the first is no longer: they agree on the whole column; or the first ends inside the column, the
   * second begins with it, and goes on there as the suffix does.
   */
  predicate Collide(a: string, b: string, suffix: string) {
    if |a| >= 24 then |b| >= 24 && a[..24] == b[..24]
    else
      var room := 24 - |a|;
      |suffix| >= room && a < b && (b[|a|..] + suffix)[..room] == suffix[..room]
  }

  /** The exact condition for the suffixed twins of two different tags to coincide. */
  lemma DefaultTwinsCollide(a: string, b: string, suffix: string)
    requires a != b && |a| <= |b|
    ensures Default(a, suffix) == Default(b, suffix) <==> Collide(a, b, suffix)
  {
    var x, y := a + suffix, b + suffix;
    assert a == x[..|a|] && b == y[..|b|] && y[..|a|] == b[..|a|];
    if |a| >= 24 {
      assert x[..24] == a[..24] && y[..24] == b[..24];
    } else if |x| >= 24 {
      var room := 24 - |a|;
      assert x[..24] == a + suffix[..room];
      if a <= b {
        assert b == a + b[|a|..];
        assert y[..24] == a + (b[|a|..] + suffix)[..room];
        SamePrefix(a, suffix[..room], (b[|a|..] + suffix)[..room]);
      } else {
        assert x[..24][..|a|] == a && y[..24][..|a|] == b[..|a|];
      }
    }
  }

  lemma SamePrefix(a: string, x: string, y: string)
    ensures a + x == a + y <==> x == y
  {
    assert (a + x)[|a|..] == x && (a + y)[|a|..] == y;
  }

  function NamedTwin(c: Config, live: string): Option<string> {
    var explicit := Explicits(Split(c.entries, ','), Suffix(c));
    if live in explicit then Some(explicit[live]) else None
  }

  /**
   * Two listed live tags share their twin exactly when their entries name the same, or the one's entry names the
   * other's suffixed tag, or neither has an entry and the suffixed tags collide.
   */
  lemma ListedTwinsShared(pairs: seq<(string, string)>, c: Config, p: (string, string), q: (string, string))
    requires Lists(pairs, c) && p in pairs && q in pairs && p.0 != q.0 && |p.0| <= |q.0|
    ensures p.1 == q.1 <==>
            match (NamedTwin(c, p.0), NamedTwin(c, q.0))
            case (Some(x), Some(y)) => x == y
            case (Some(x), None) => x == Default(q.0, Suffix(c))
            case (None, Some(y)) => y == Default(p.0, Suffix(c))
            case (None, None) => Collide(p.0, q.0, Suffix(c))
  {
    hide Explicits, Split, Suffix, LiveTags, Default, Collide;
    assert p == (p.0, p.1) && q == (q.0, q.1);
    assert Derived(c, p.0) == Some(p.1) && Derived(c, q.0) == Some(q.1);
    DefaultTwinsCollide(p.0, q.0, Suffix(c));
  }

  // --- a configuration with one twin for two live books ----------------------------------------

  const STEM := "mmsell_weather_favband"
  const BOOK_A := STEM + "a"
  const BOOK_B := BOOK_A + "_x"
  const TWIN := BOOK_A + "_"

  lemma NoComma(a: string, b: string)
    requires ',' !in a && ',' !in b && Tight(a) && Tight(b) && a != [] && b != []
    ensures TagList(Split(a + "," + b, ',')) == [a, b]
  {
    SplitHead(a, b, ',');
    SplitPlain(b, ',');
    assert a + "," + b == a + [','] + b;
    assert Init([a, b]) == [a] && Init([a]) == [];
    TightStrips(a);
    TightStrips(b);
    hide Split, Strip;
    assert TagList([a]) == [a];
  }

  /** Two allowlisted books of 23 and 25 letters, the standing suffix, no explicit entry: both run against one twin. */
  lemma TwoBooksOneTwin(pairs: seq<(string, string)>)
    requires Lists(pairs, Config(true, BOOK_A + "," + BOOK_B, "_pt", "", true))
    ensures (BOOK_A, TWIN) in pairs && (BOOK_B, TWIN) in pairs && BOOK_A != BOOK_B
  {
    var c := Config(true, BOOK_A + "," + BOOK_B, "_pt", "", true);
    BooksShape();
    NoComma(BOOK_A, BOOK_B);
    NoEntries();
    TightStrips("_pt");
    hide Strip, Split, BOOK_A, BOOK_B, TWIN;
    assert Derived(c, BOOK_A) == Some(TWIN) && Derived(c, BOOK_B) == Some(TWIN);
  }

  lemma BooksShape()
    ensures |BOOK_A| == 23 && |BOOK_B| == 25 && |TWIN| == 24 && BOOK_A != BOOK_B
    ensures ',' !in BOOK_A && ',' !in BOOK_B && Tight(BOOK_A) && Tight(BOOK_B)
    ensures Default(BOOK_A, "_pt") == TWIN && Default(BOOK_B, "_pt") == TWIN
  {
    assert (BOOK_A + "_pt")[..24] == TWIN;
    assert (BOOK_B + "_pt")[..24] == TWIN;
  }

  lemma NoEntries()
    ensures forall suffix :: Explicits(Split("", ','), suffix) == map[]
  {
    SplitPlain("", ',');
    forall suffix ensures Explicits([""], suffix) == map[] {
      assert Explicit("", suffix) == None;
      assert Init([""]) == [] && Explicits([], suffix) == map[];
    }
  }
}
