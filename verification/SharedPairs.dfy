// The setting that lets two live tags share a market: its parser, its printer and the lookup.
module SharedPairs {
  import opened Prelude
  import opened Decimal
  import opened Text
  import opened Numerals

  /** The unordered pair of tags is kept with the smaller tag first. */
  datatype SharedMarketPair = SharedMarketPair(low: string, high: string, maxContracts: nat, maxUsd: Float)

  function Tags(p: SharedMarketPair): set<string> {
    {p.low, p.high}
  }

  predicate Positive(x: Float) {
    (x.Finite? && x.value > 0.0) || x == Infinite(false)
  }

  /** Canonical spelling: tags sorted, dollars with two decimals. */
  function EnvValue(p: SharedMarketPair): string {
    p.low + "+" + p.high + ":" + Digits(p.maxContracts) + ":" + TwoDecimals(p.maxUsd)
  }

  // --- parsing ---------------------------------------------------------------------------------

  function Paired(a: string, b: string, contracts: nat, usd: Float): SharedMarketPair {
    if Before(b, a) then SharedMarketPair(b, a, contracts, usd) else SharedMarketPair(a, b, contracts, usd)
  }

  /** One entry; None when it does not parse completely or a rule drops it. */
  function ParseEntry(raw: string, twins: set<string>): Option<SharedMarketPair> {
    var entry := Strip(raw);
    if entry == "" then None
    else
      var parts := Split(entry, ':');
      if |parts| != 3 then None else ParseParts(parts[0], parts[1], parts[2], twins)
  }

  function ParseParts(names: string, contracts: string, usd: string, twins: set<string>): Option<SharedMarketPair> {
    var tags := TagList(Split(names, '+'));
    var maxContracts, maxUsd := ReadInt(contracts), ReadFloat(usd);
    if maxContracts.None? || maxUsd.None? then None
    else if |tags| != 2 || tags[0] == tags[1] || maxContracts.value <= 0 || !Positive(maxUsd.value) then None
    else if tags[0] in twins || tags[1] in twins then None
    else Some(Paired(tags[0], tags[1], maxContracts.value, maxUsd.value))
  }

  function OneParsed(entry: string, twins: set<string>): seq<SharedMarketPair> {
    match ParseEntry(entry, twins)
    case Some(p) => [p]
    case None => []
  }

  function Parsed(entries: seq<string>, twins: set<string>): seq<SharedMarketPair> {
    if entries == [] then [] else Parsed(Init(entries), twins) + OneParsed(Last(entries), twins)
  }

  /** Number of pairs that name a tag. */
  function Named(pairs: seq<SharedMarketPair>, tag: string): nat {
    if pairs == [] then 0 else Named(Init(pairs), tag) + (if tag in Tags(Last(pairs)) then 1 else 0)
  }

  predicate Unambiguous(p: SharedMarketPair, all: seq<SharedMarketPair>) {
    Named(all, p.low) == 1 && Named(all, p.high) == 1
  }

  function Kept(pairs: seq<SharedMarketPair>, all: seq<SharedMarketPair>): seq<SharedMarketPair> {
    if pairs == [] then [] else Kept(Init(pairs), all) + (if Unambiguous(Last(pairs), all) then [Last(pairs)] else [])
  }

  function PairsOf(parsed: seq<SharedMarketPair>): seq<SharedMarketPair> {
    Kept(parsed, parsed)
  }

  function Pairs(setting: string, twins: set<string>): seq<SharedMarketPair> {
    PairsOf(Parsed(Split(setting, ';'), twins))
  }

  ghost predicate Counts(seen: map<string, nat>, pairs: seq<SharedMarketPair>) {
    forall t :: (if t in seen then seen[t] else 0) == Named(pairs, t)
  }

  function Bumped(seen: map<string, nat>, tag: string): map<string, nat> {
    seen[tag := (if tag in seen then seen[tag] else 0) + 1]
  }

  lemma CountsNext(seen: map<string, nat>, pairs: seq<SharedMarketPair>, p: SharedMarketPair)
    requires Counts(seen, pairs) && p.low != p.high
    ensures Counts(Bumped(Bumped(seen, p.low), p.high), pairs + [p])
  {
    assert Init(pairs + [p]) == pairs;
  }

  /** Read the entries, count the pairs of every tag, and keep the pairs whose tags are named once. */
  method SharedMarketPairs(setting: string, twins: set<string>) returns (result: seq<SharedMarketPair>)
    ensures result == Pairs(setting, twins)
  {
    hide ParseEntry, Counts, Split;
    var entries := Split(setting, ';');
    var parsed: seq<SharedMarketPair> := [];
    for i := 0 to |entries|
      invariant parsed == Parsed(entries[..i], twins)
    {
      assert Init(entries[..i + 1]) == entries[..i] && Last(entries[..i + 1]) == entries[i];
      match ParseEntry(entries[i], twins) {
        case None => continue;
        case Some(p) => parsed := parsed + [p];
      }
    }
    assert entries[..|entries|] == entries;
    SplitParts(setting, ';');
    ParsedAreGood(entries, twins);
    var seen: map<string, nat> := map[];
    CountsNone();
    for i := 0 to |parsed|
      invariant Counts(seen, parsed[..i])
    {
      assert parsed[..i + 1] == parsed[..i] + [parsed[i]];
      GoodTags(parsed[i], twins);
      CountsNext(seen, parsed[..i], parsed[i]);
      seen := Bumped(Bumped(seen, parsed[i].low), parsed[i].high);
    }
    assert parsed[..|parsed|] == parsed;
    result := [];
    for i := 0 to |parsed|
      invariant result == Kept(parsed[..i], parsed)
    {
      assert Init(parsed[..i + 1]) == parsed[..i] && Last(parsed[..i + 1]) == parsed[i];
      var p := parsed[i];
      SeenIs(seen, parsed, p);
      if p.low in seen && seen[p.low] == 1 && p.high in seen && seen[p.high] == 1 { result := result + [p]; }
    }
  }

  lemma CountsNone()
    ensures Counts(map[], [])
  {
  }

  lemma SeenIs(seen: map<string, nat>, pairs: seq<SharedMarketPair>, p: SharedMarketPair)
    requires Counts(seen, pairs)
    ensures Unambiguous(p, pairs) <==> p.low in seen && seen[p.low] == 1 && p.high in seen && seen[p.high] == 1
  {
    assert (if p.low in seen then seen[p.low] else 0) == Named(pairs, p.low);
    assert (if p.high in seen then seen[p.high] else 0) == Named(pairs, p.high);
  }

  /** The first pair that holds the tag. */
  method PairFor(setting: string, twins: set<string>, tag: string) returns (r: Option<SharedMarketPair>)
    ensures forall p :: p in Pairs(setting, twins) && tag in Tags(p) <==> r == Some(p)
  {
    hide Pairs, Disjoint, Tags;
    var pairs := SharedMarketPairs(setting, twins);
    PairsAreGood(setting, twins);
    for i := 0 to |pairs|
      invariant forall k :: 0 <= k < i ==> tag !in Tags(pairs[k])
    {
      if tag in Tags(pairs[i]) {
        OnlyOne(pairs, i, tag);
        return Some(pairs[i]);
      }
    }
    return None;
  }

  // --- tag-disjointness ------------------------------------------------------------------------

  lemma {:induction false} KeptHolds(pairs: seq<SharedMarketPair>, all: seq<SharedMarketPair>, p: SharedMarketPair)
    ensures p in Kept(pairs, all) <==> p in pairs && Unambiguous(p, all)
    ensures |Kept(pairs, all)| <= |pairs|
  {
    if pairs != [] {
      KeptHolds(Init(pairs), all, p);
      assert pairs == Init(pairs) + [Last(pairs)];
    }
  }

  lemma {:induction false} NamedOnce(pairs: seq<SharedMarketPair>, i: nat, tag: string)
    requires i < |pairs| && tag in Tags(pairs[i])
    ensures Named(pairs, tag) >= 1
    ensures Named(pairs, tag) == 1 <==> forall j :: 0 <= j < |pairs| && j != i ==> tag !in Tags(pairs[j])
  {
    var rest, last := Init(pairs), Last(pairs);
    if i == |pairs| - 1 {
      NamedNone(rest, tag);
      assert forall j :: 0 <= j < |rest| ==> pairs[j] == rest[j];
    } else {
      NamedOnce(rest, i, tag);
      assert forall j :: 0 <= j < |rest| ==> pairs[j] == rest[j];
      assert pairs[|pairs| - 1] == last;
    }
  }

  lemma {:induction false} NamedNone(pairs: seq<SharedMarketPair>, tag: string)
    ensures Named(pairs, tag) == 0 <==> forall j :: 0 <= j < |pairs| ==> tag !in Tags(pairs[j])
  {
    if pairs != [] {
      NamedNone(Init(pairs), tag);
      assert forall j :: 0 <= j < |pairs| - 1 ==> pairs[j] == Init(pairs)[j];
    }
  }

  ghost predicate Disjoint(pairs: seq<SharedMarketPair>) {
    forall i, j :: 0 <= i < j < |pairs| ==> Tags(pairs[i]) * Tags(pairs[j]) == {}
  }

  lemma OnlyOne(pairs: seq<SharedMarketPair>, i: nat, tag: string)
    requires Disjoint(pairs) && i < |pairs| && tag in Tags(pairs[i])
    ensures forall k :: 0 <= k < |pairs| && k != i ==> tag !in Tags(pairs[k])
  {
    hide Tags;
    forall k | 0 <= k < |pairs| && k != i ensures tag !in Tags(pairs[k]) {
      var common := if k < i then Tags(pairs[k]) * Tags(pairs[i]) else Tags(pairs[i]) * Tags(pairs[k]);
      assert common == {};
      assert tag in Tags(pairs[k]) ==> tag in common;
    }
  }

  /**
   * Positions of the kept pairs never share a tag, so at most one pair answers a lookup, in whatever order they come.
   */
  lemma PairsDisjoint(parsed: seq<SharedMarketPair>)
    ensures Disjoint(PairsOf(parsed))
  {
    KeptDisjoint(parsed, parsed);
  }

  lemma {:induction false} KeptDisjoint(pairs: seq<SharedMarketPair>, all: seq<SharedMarketPair>)
    requires pairs <= all
    ensures Disjoint(Kept(pairs, all))
  {
    if pairs != [] {
      KeptDisjoint(Init(pairs), all);
      var p := Last(pairs);
      if Unambiguous(p, all) {
        var at := |pairs| - 1;
        NamedOnce(all, at, p.low);
        NamedOnce(all, at, p.high);
        forall q | q in Kept(Init(pairs), all) ensures Tags(q) * Tags(p) == {} {
          KeptHolds(Init(pairs), all, q);
          var j :| 0 <= j < at && pairs[j] == q;
          assert all[j] == q;
        }
      }
    }
  }

  // --- adding an entry -------------------------------------------------------------------------

  lemma {:induction false} NamedAppend(a: seq<SharedMarketPair>, b: seq<SharedMarketPair>, tag: string)
    ensures Named(a + b, tag) == Named(a, tag) + Named(b, tag)
  {
    if b == [] {
      assert a + b == a;
    } else {
      NamedAppend(a, Init(b), tag);
      assert Init(a + b) == a + Init(b);
    }
  }

  lemma {:induction false} ParsedAppend(a: seq<string>, b: seq<string>, twins: set<string>)
    ensures Parsed(a + b, twins) == Parsed(a, twins) + Parsed(b, twins)
  {
    hide OneParsed;
    if b == [] {
      assert a + b == a;
    } else {
      ParsedAppend(a, Init(b), twins);
      assert Init(a + b) == a + Init(b);
    }
  }

  lemma ParsedOne(e: string, twins: set<string>)
    ensures Parsed([e], twins) == OneParsed(e, twins)
  {
    assert Init([e]) == [];
  }

  lemma NamedInsert(a: seq<SharedMarketPair>, x: SharedMarketPair, b: seq<SharedMarketPair>, tag: string)
    ensures Named(a + [x] + b, tag) == Named(a + b, tag) + (if tag in Tags(x) then 1 else 0)
  {
    NamedAppend(a + [x], b, tag);
    NamedAppend(a, b, tag);
    assert Init(a + [x]) == a;
  }

  /** A parsed pair more: it is kept when nobody named its tags, and it drops every pair that shares a tag with it. */
  lemma InsertPair(a: seq<SharedMarketPair>, x: SharedMarketPair, b: seq<SharedMarketPair>, p: SharedMarketPair)
    ensures p in PairsOf(a + [x] + b)
            <==> (p in PairsOf(a + b) && Tags(p) * Tags(x) == {})
                 || (p == x && Named(a + b, x.low) == 0 && Named(a + b, x.high) == 0)
  {
    var before, after := a + b, a + [x] + b;
    KeptHolds(before, before, p);
    KeptHolds(after, after, p);
    NamedInsert(a, x, b, p.low);
    NamedInsert(a, x, b, p.high);
    assert p in after <==> p in before || p == x;
    if p in before {
      var i :| 0 <= i < |before| && before[i] == p;
      NamedOnce(before, i, p.low);
      NamedOnce(before, i, p.high);
    }
    assert Tags(p) * Tags(x) == {} <==> p.low !in Tags(x) && p.high !in Tags(x);
  }

  /** Where an entry is written into a setting. */
  datatype Place = First | Final | Between(left: string, right: string) | Only

  predicate Fits(place: Place, setting: string) {
    match place
    case Between(left, right) => setting == left + ";" + right
    case Only => setting == ""
    case _ => true
  }

  function WithEntry(setting: string, entry: string, place: Place): string
    requires Fits(place, setting)
  {
    match place
    case First => entry + ";" + setting
    case Final => setting + ";" + entry
    case Between(left, right) => left + ";" + (entry + ";" + right)
    case Only => entry
  }

  lemma ParsedBetween(left: string, entry: string, right: string, twins: set<string>)
    requires ';' !in entry
    ensures Parsed(Split(left + ";" + right, ';'), twins)
            == Parsed(Split(left, ';'), twins) + Parsed(Split(right, ';'), twins)
    ensures Parsed(Split(left + ";" + (entry + ";" + right), ';'), twins)
            == Parsed(Split(left, ';'), twins) + OneParsed(entry, twins) + Parsed(Split(right, ';'), twins)
  {
    hide OneParsed, Split, Parsed;
    ParsedOne(entry, twins);
    SplitPlain(entry, ';');
    SplitAround(left, right, ';');
    SplitAround(left, entry + ";" + right, ';');
    SplitAround(entry, right, ';');
    ParsedAppend(Split(left, ';'), Split(right, ';'), twins);
    ParsedAppend(Split(left, ';'), [entry] + Split(right, ';'), twins);
    ParsedAppend([entry], Split(right, ';'), twins);
  }

  /** The parsed pairs of a setting with one more entry: those of the setting, with the entry's in between. */
  lemma ParsedWithEntry(setting: string, entry: string, place: Place, twins: set<string>)
    returns (l: seq<SharedMarketPair>, r: seq<SharedMarketPair>)
    requires ';' !in entry && Fits(place, setting)
    ensures Parsed(Split(setting, ';'), twins) == l + r
    ensures Parsed(Split(WithEntry(setting, entry, place), ';'), twins) == l + OneParsed(entry, twins) + r
  {
    hide OneParsed, Split, Parsed;
    ParsedOne(entry, twins);
    SplitPlain(entry, ';');
    match place {
      case First =>
        SplitAround(entry, setting, ';');
        ParsedAppend([entry], Split(setting, ';'), twins);
        l, r := [], Parsed(Split(setting, ';'), twins);
      case Final =>
        SplitAround(setting, entry, ';');
        ParsedAppend(Split(setting, ';'), [entry], twins);
        l, r := Parsed(Split(setting, ';'), twins), [];
      case Between(left, right) =>
        ParsedBetween(left, entry, right, twins);
        l, r := Parsed(Split(left, ';'), twins), Parsed(Split(right, ';'), twins);
      case Only =>
        EmptySetting(twins);
        l, r := [], [];
    }
  }

  /**
   * Adding an entry to a setting, at its start, at its end or in between: an entry that does not parse changes nothing;
   * one that parses can add only its own pair, and otherwise only removes the pairs that share a tag with it.
   */
  lemma AddingAnEntry(setting: string, entry: string, place: Place, twins: set<string>, p: SharedMarketPair)
    requires ';' !in entry && Fits(place, setting)
    ensures var was, now := Pairs(setting, twins), Pairs(WithEntry(setting, entry, place), twins);
            var others := Parsed(Split(setting, ';'), twins);
            match ParseEntry(entry, twins)
            case None => now == was
            case Some(x) => p in now <==> (p in was && Tags(p) * Tags(x) == {})
                                          || (p == x && Named(others, x.low) == 0 && Named(others, x.high) == 0)
  {
    hide ParseEntry, Split, Parsed, Pairs, Kept, Named, Tags, WithEntry;
    PairsIs(setting, twins);
    PairsIs(WithEntry(setting, entry, place), twins);
    var l, r := ParsedWithEntry(setting, entry, place, twins);
    match ParseEntry(entry, twins) {
      case None => assert l + [] + r == l + r;
      case Some(x) => InsertPair(l, x, r, p);
    }
  }

  // --- print, then parse -----------------------------------------------------------------------

  /** A tag as the parser leaves it: not empty, no blanks around it, and free of the three separators. */
  ghost predicate GoodTag(t: string) {
    t != [] && Tight(t) && ';' !in t && ':' !in t && '+' !in t
  }

  ghost predicate Good(p: SharedMarketPair, twins: set<string>) {
    GoodTag(p.low) && GoodTag(p.high) && Before(p.low, p.high) && p.maxContracts > 0 && Positive(p.maxUsd)
    && p.low !in twins && p.high !in twins
  }

  lemma GoodTags(p: SharedMarketPair, twins: set<string>)
    requires Good(p, twins)
    ensures p.low != p.high && Positive(p.maxUsd)
  {
    BeforeTotal(p.low, p.high);
  }

  lemma TagIsGood(raw: string, names: string, t: string)
    requires ';' !in raw && Within(names, raw) && ':' !in names
    requires t in TagList(Split(names, '+'))
    ensures GoodTag(t)
  {
    TagListHolds(Split(names, '+'), t);
    SplitParts(names, '+');
    var part :| part in Split(names, '+') && Within(t, part);
    assert Within(part, names) && '+' !in part;
  }

  lemma EntryIsGood(raw: string, twins: set<string>)
    requires ';' !in raw
    ensures ParseEntry(raw, twins).Some? ==> Good(ParseEntry(raw, twins).value, twins)
  {
    hide Split, ReadInt, ReadFloat, Strip, TagList;
    if ParseEntry(raw, twins).None? { return; }
    var entry := Strip(raw);
    StripIsTight(raw);
    SplitParts(entry, ':');
    var parts := Split(entry, ':');
    var tags := TagList(Split(parts[0], '+'));
    assert Within(parts[0], raw);
    TagIsGood(raw, parts[0], tags[0]);
    TagIsGood(raw, parts[0], tags[1]);
    BeforeTotal(tags[0], tags[1]);
  }

  lemma {:induction false} ParsedAreGood(entries: seq<string>, twins: set<string>)
    requires forall i :: 0 <= i < |entries| ==> ';' !in entries[i]
    ensures forall i :: 0 <= i < |Parsed(entries, twins)| ==> Good(Parsed(entries, twins)[i], twins)
  {
    if entries != [] {
      hide ParseEntry, Good;
      ParsedAreGood(Init(entries), twins);
      EntryIsGood(Last(entries), twins);
    }
  }

  function EnvValues(pairs: seq<SharedMarketPair>): (entries: seq<string>)
    ensures |entries| == |pairs| && forall i :: 0 <= i < |pairs| ==> entries[i] == EnvValue(pairs[i])
  {
    seq(|pairs|, i requires 0 <= i < |pairs| => EnvValue(pairs[i]))
  }

  /** The setting that spells the pairs. */
  function Print(pairs: seq<SharedMarketPair>): string {
    Join(EnvValues(pairs), ';')
  }

  /** What a printed pair reads back as: its bound rounded to cents, or nothing when that is zero. */
  function Reread(p: SharedMarketPair): Option<SharedMarketPair> {
    var usd := ReadFloat(TwoDecimals(p.maxUsd));
    if usd.Some? && Positive(usd.value) then Some(p.(maxUsd := usd.value)) else None
  }

  lemma DollarsText(x: Float)
    requires Positive(x)
    ensures var s := TwoDecimals(x); s != [] && !IsSpace(Last(s)) && ';' !in s && ':' !in s
  {
    if x.Finite? {
      Reals.RoundExact(100.0 * x.value);
      hide CentsText;
      CentsArePlain(Reals.Round(100.0 * x.value));
    }
  }

  lemma SplitThree(a: string, b: string, c: string)
    requires ':' !in a && ':' !in b && ':' !in c
    ensures Split(a + ":" + b + ":" + c, ':') == [a, b, c]
  {
    hide Split;
    assert a + ":" + b + ":" + c == a + [':'] + (b + [':'] + c);
    SplitHead(a, b + [':'] + c, ':');
    SplitHead(b, c, ':');
    SplitPlain(c, ':');
  }

  lemma NamesRead(p: SharedMarketPair, twins: set<string>)
    requires Good(p, twins)
    ensures TagList(Split(p.low + "+" + p.high, '+')) == [p.low, p.high]
  {
    PlusSplits(p.low, p.high);
  }

  lemma TagListTwo(a: string, b: string)
    requires a != [] && b != [] && Strip(a) == a && Strip(b) == b
    ensures TagList([a, b]) == [a, b]
  {
    hide Strip;
    assert Init([a, b]) == [a] && Init([a]) == [] && TagList([a]) == [a];
  }

  lemma EntryShape(p: SharedMarketPair, twins: set<string>)
    requires Good(p, twins)
    ensures ';' !in EnvValue(p) && Strip(EnvValue(p)) == EnvValue(p) && EnvValue(p) != ""
    ensures Split(EnvValue(p), ':') == [p.low + "+" + p.high, Digits(p.maxContracts), TwoDecimals(p.maxUsd)]
  {
    hide Split, Strip, TwoDecimals, Digits;
    var names, digits, usd := p.low + "+" + p.high, Digits(p.maxContracts), TwoDecimals(p.maxUsd);
    DollarsText(p.maxUsd);
    PlainDigits(digits);
    assert EnvValue(p) == names + ":" + digits + ":" + usd;
    SplitThree(names, digits, usd);
    assert EnvValue(p)[0] == p.low[0] && Last(EnvValue(p)) == Last(usd);
    TightStrips(EnvValue(p));
  }

  /** A printed pair parses to itself up to the rounding of its bound. */
  lemma EntryReads(p: SharedMarketPair, twins: set<string>)
    requires Good(p, twins)
    ensures ParseEntry(EnvValue(p), twins) == Reread(p)
  {
    hide Split, Strip, TwoDecimals, Digits, ReadInt, ReadFloat, TagList, EnvValue;
    EntryShape(p, twins);
    NamesRead(p, twins);
    IntReadsBack(p.maxContracts);
    TwoDecimalsReadBack(p.maxUsd);
    BeforeTotal(p.low, p.high);
  }

  /** An entry as it is typed: two tags, whole contracts, whole dollars. */
  lemma TypedEntry(a: string, b: string, contracts: nat, dollars: nat, twins: set<string>)
    requires GoodTag(a) && GoodTag(b)
    ensures var read := ParseEntry(a + "+" + b + ":" + Digits(contracts) + ":" + Digits(dollars), twins);
            if a == b || contracts == 0 || dollars == 0 || a in twins || b in twins then read == None
            else
              && read.Some? && read.value.low != read.value.high && Tags(read.value) == {a, b}
              && read.value.maxContracts == contracts && read.value.maxUsd == Finite(dollars as real)
  {
    hide Split, Strip, ReadInt, ReadFloat, TagList, Digits;
    PlainDigits(Digits(dollars));
    EntryParts(a, b, contracts, Digits(dollars), twins);
    DigitsReadBack(dollars);
    BeforeTotal(a, b);
  }

  /** An infinite bound is one that never binds; a bound that is no number, or below everything, is none. */
  lemma UnboundedEntry(a: string, b: string, contracts: nat, twins: set<string>)
    requires GoodTag(a) && GoodTag(b) && a != b && a !in twins && b !in twins && contracts > 0
    ensures var head := a + "+" + b + ":" + Digits(contracts) + ":";
      && (match ParseEntry(head + "inf", twins)
          case Some(p) => Tags(p) == {a, b} && p.maxContracts == contracts && p.maxUsd == Infinite(false)
          case None => false)
      && ParseEntry(head + "NaN", twins) == ParseEntry(head + "-INF", twins) == None
  {
    hide Split, Strip, ReadInt, ReadFloat, TagList, Digits;
    SpecialFloats();
    InfiniteReadsBack();
    EntryParts(a, b, contracts, "inf", twins);
    EntryParts(a, b, contracts, "NaN", twins);
    EntryParts(a, b, contracts, "-INF", twins);
    BeforeTotal(a, b);
  }

  lemma EntryParts(a: string, b: string, contracts: nat, usd: string, twins: set<string>)
    requires GoodTag(a) && GoodTag(b) && usd != "" && ':' !in usd && !IsSpace(Last(usd))
    ensures var names, n := a + "+" + b, Digits(contracts);
            ParseEntry(names + ":" + n + ":" + usd, twins) == ParseParts(names, n, usd, twins)
    ensures TagList(Split(a + "+" + b, '+')) == [a, b] && ReadInt(Digits(contracts)) == Some(contracts)
  {
    hide Split, Strip, ReadInt, ReadFloat, TagList, Digits, ParseParts;
    var names, n := a + "+" + b, Digits(contracts);
    var entry := names + ":" + n + ":" + usd;
    PlainDigits(n);
    SplitThree(names, n, usd);
    assert entry[0] == a[0] && Last(entry) == Last(usd);
    TightStrips(entry);
    PlusSplits(a, b);
    DigitsReadBack(contracts);
  }

  lemma PlusSplits(a: string, b: string)
    requires GoodTag(a) && GoodTag(b)
    ensures TagList(Split(a + "+" + b, '+')) == [a, b]
  {
    hide Split, Strip;
    SplitHead(a, b, '+');
    SplitPlain(b, '+');
    TightStrips(a);
    TightStrips(b);
    TagListTwo(a, b);
  }

  lemma {:induction false} KeptAll(pairs: seq<SharedMarketPair>, all: seq<SharedMarketPair>)
    requires pairs <= all && Disjoint(all)
    ensures Kept(pairs, all) == pairs
  {
    if pairs != [] {
      KeptAll(Init(pairs), all);
      var at := |pairs| - 1;
      assert all[at] == Last(pairs);
      forall j | 0 <= j < |all| && j != at ensures all[at].low !in Tags(all[j]) && all[at].high !in Tags(all[j]) {
        var common := if j < at then Tags(all[j]) * Tags(all[at]) else Tags(all[at]) * Tags(all[j]);
        assert all[at].low !in common && all[at].high !in common;
      }
      NamedOnce(all, at, all[at].low);
      NamedOnce(all, at, all[at].high);
    }
  }

  lemma {:induction false} KeptFull(pairs: seq<SharedMarketPair>, all: seq<SharedMarketPair>)
    requires |Kept(pairs, all)| == |pairs|
    ensures Kept(pairs, all) == pairs
  {
    if pairs != [] {
      KeptHolds(Init(pairs), all, Last(pairs));
      KeptFull(Init(pairs), all);
    }
  }

  lemma {:induction false} ParsedLength(entries: seq<string>, twins: set<string>)
    ensures |Parsed(entries, twins)| <= |entries|
    ensures |Parsed(entries, twins)| == |entries|
            <==> forall i :: 0 <= i < |entries| ==> ParseEntry(entries[i], twins).Some?
    ensures |Parsed(entries, twins)| == |entries| ==>
              forall i :: 0 <= i < |entries| ==> ParseEntry(entries[i], twins) == Some(Parsed(entries, twins)[i])
  {
    hide ParseEntry;
    if entries != [] {
      ParsedLength(Init(entries), twins);
      assert forall i :: 0 <= i < |entries| - 1 ==> entries[i] == Init(entries)[i];
    }
  }

  ghost predicate AllGood(pairs: seq<SharedMarketPair>, twins: set<string>) {
    forall i :: 0 <= i < |pairs| ==> Good(pairs[i], twins)
  }

  ghost predicate AllWholeCents(pairs: seq<SharedMarketPair>) {
    forall i :: 0 <= i < |pairs| ==> WholeCents(pairs[i].maxUsd)
  }

  /** Every pair the parser returns is good, and no two of them share a tag. */
  lemma PairsAreGood(setting: string, twins: set<string>)
    ensures AllGood(Pairs(setting, twins), twins) && Disjoint(Pairs(setting, twins))
    ensures forall i :: 0 <= i < |Pairs(setting, twins)| ==> Positive(Pairs(setting, twins)[i].maxUsd)
  {
    hide Split, Disjoint, Good;
    var parsed := Parsed(Split(setting, ';'), twins);
    SplitParts(setting, ';');
    ParsedAreGood(Split(setting, ';'), twins);
    PairsDisjoint(parsed);
    forall i | 0 <= i < |PairsOf(parsed)|
      ensures Good(PairsOf(parsed)[i], twins) && Positive(PairsOf(parsed)[i].maxUsd)
    {
      KeptHolds(parsed, parsed, PairsOf(parsed)[i]);
      GoodTags(PairsOf(parsed)[i], twins);
    }
  }

  lemma PrintSplits(pairs: seq<SharedMarketPair>, twins: set<string>)
    requires AllGood(pairs, twins)
    ensures Parsed(Split(Print(pairs), ';'), twins) == Parsed(EnvValues(pairs), twins)
  {
    hide Split, Good, EnvValue, Join;
    if pairs == [] {
      EmptySetting(twins);
    } else {
      forall i | 0 <= i < |pairs| ensures ';' !in EnvValues(pairs)[i] { EntryShape(pairs[i], twins); }
      SplitJoin(EnvValues(pairs), ';');
    }
  }

  lemma EmptySetting(twins: set<string>)
    ensures Join([], ';') == "" && Parsed(Split("", ';'), twins) == [] && Parsed([], twins) == []
  {
    SplitPlain("", ';');
    ParsedOne("", twins);
  }

  /**
   * Printing the parsed pairs and parsing again gives them back exactly when all dollar bounds are whole cents (or
   * infinite).
   */
  lemma PrintThenParse(setting: string, twins: set<string>)
    ensures Pairs(Print(Pairs(setting, twins)), twins) == Pairs(setting, twins)
            <==> AllWholeCents(Pairs(setting, twins))
  {
    hide Split, Pairs, Print, EnvValue, Disjoint, Good, ParseEntry, Parsed, Kept, WholeCents, Reread;
    var pairs := Pairs(setting, twins);
    var entries := EnvValues(pairs);
    var parsed := Parsed(entries, twins);
    PairsAreGood(setting, twins);
    PrintSplits(pairs, twins);
    assert Pairs(Print(pairs), twins) == PairsOf(parsed) by { PairsIs(Print(pairs), twins); }
    ParsedLength(entries, twins);
    forall i | 0 <= i < |pairs|
      ensures ParseEntry(entries[i], twins) == Reread(pairs[i])
      ensures Reread(pairs[i]) == Some(pairs[i]) <==> WholeCents(pairs[i].maxUsd)
    {
      EntryReads(pairs[i], twins);
      RereadIs(pairs[i]);
    }
    if AllWholeCents(pairs) {
      assert parsed == pairs;
      KeptAll(pairs, pairs);
    }
    if PairsOf(parsed) == pairs {
      if pairs != [] { KeptHolds(parsed, parsed, pairs[0]); }
      KeptFull(parsed, parsed);
    }
  }

  lemma PairsIs(setting: string, twins: set<string>)
    ensures Pairs(setting, twins) == PairsOf(Parsed(Split(setting, ';'), twins))
  {
  }

  lemma RereadIs(p: SharedMarketPair)
    requires Positive(p.maxUsd)
    ensures Reread(p) == Some(p) <==> WholeCents(p.maxUsd)
  {
    hide ReadFloat, TwoDecimals, WholeCents;
    TwoDecimalsReadBack(p.maxUsd);
  }
}
