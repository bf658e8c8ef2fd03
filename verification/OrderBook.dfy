// Replaying an order against a live book: the strict level parser and the greedy fill walk.
module OrderBook {
  import opened Prelude
  import opened Reals
  import opened Sorting

  // --- parsing ---------------------------------------------------------------------------------

  /**
   * What `float()` makes of a field: a finite value, a refusal that the parser catches, one of the two special floats,
   * or the OverflowError of an integer too large for a float.
   */
  datatype Field = Number(value: real) | NotANumber | Infinite | Nan | TooLarge

  datatype RawLevel = Items(fields: seq<Field>) | NotIndexable

  datatype Level = Level(price: int, qty: int)

  /** What one raw level gives: a level, nothing, or an exception the parser does not catch. */
  datatype Reading = Read(level: Level) | Skipped | Uncaught

  function PriceCents(x: real): int {
    if 0.0 < x < 1.0 then Round(100.0 * x) else Round(x)
  }

  /** A price quoted in dollars and the same price quoted in cents are one price. */
  lemma DollarsAndCents(cents: int)
    requires 0 < cents < 100
    ensures PriceCents(cents as real / 100.0) == cents && PriceCents(cents as real) == cents
  {
    RoundExact(cents as real);
  }

  predicate Tradable(l: Level) {
    0 < l.price < 100 && l.qty > 0
  }

  function ReadLevel(raw: RawLevel): Reading {
    if raw.NotIndexable? || |raw.fields| == 0 || raw.fields[0].Nan? then Skipped
    else if raw.fields[0].Infinite? || raw.fields[0].TooLarge? then Uncaught
    else if |raw.fields| == 1 || raw.fields[1].NotANumber? then Skipped
    else if !raw.fields[1].Number? then Uncaught
    else if raw.fields[0].NotANumber? then Skipped
    else
      var l := Level(PriceCents(raw.fields[0].value), Truncate(raw.fields[1].value));
      if Tradable(l) then Read(l) else Skipped
  }

  /** `float()` of an integer of the response. */
  function FloatOf(n: int): Field {
    if Overflows(n) then TooLarge else Number(n as real)
  }

  /**
   * The parser raises on a level exactly when its price is infinite or too large, or its price is not the float nan and
   * its size is infinite, too large or nan.
   */
  lemma RaisesOnALevel(price: Field, size: Field)
    ensures ReadLevel(Items([price, size])).Uncaught?
            <==> price in {Infinite, TooLarge} || (price != Nan && size in {Infinite, TooLarge, Nan})
  {
  }

  /** An integer is a float up to the limit. */
  lemma FloatsOfIntegers(n: int)
    ensures FloatOf(n)
            == if -(TwoTo(1024) - TwoTo(970)) < n < TwoTo(1024) - TwoTo(970) then Number(n as real) else TooLarge
  {
    FloatLimitIs();
    hide TwoTo, FLOAT_LIMIT;
  }

  /** One too large integer, as a price or as a size, is enough to lose the whole book. */
  lemma TooLargeIntegerRaises(before: seq<RawLevel>, other: Field, after: seq<RawLevel>)
    requires other.Number?
    ensures Parsed(before + [Items([FloatOf(FLOAT_LIMIT), other])] + after) == None
    ensures Parsed(before + [Items([other, FloatOf(FLOAT_LIMIT)])] + after) == None
  {
    var a, b := Items([FloatOf(FLOAT_LIMIT), other]), Items([other, FloatOf(FLOAT_LIMIT)]);
    assert (before + [a] + after)[|before|] == a && ReadLevel(a).Uncaught?;
    assert (before + [b] + after)[|before|] == b && ReadLevel(b).Uncaught?;
  }

  predicate AllCaught(raws: seq<RawLevel>) {
    forall i :: 0 <= i < |raws| ==> !ReadLevel(raws[i]).Uncaught?
  }

  /** The readable levels, in the order of the response. */
  function Readable(raws: seq<RawLevel>): seq<Level> {
    if raws == [] then []
    else Readable(Init(raws)) + match ReadLevel(Last(raws)) case Read(l) => [l] case _ => []
  }

  /** Levels are sorted by falling price. */
  function ByPrice(l: Level): real {
    -(l.price as real)
  }

  ghost predicate Falling(s: seq<Level>) {
    forall i, j :: 0 <= i <= j < |s| ==> s[i].price >= s[j].price
  }

  ghost predicate AllTradable(s: seq<Level>) {
    forall i :: 0 <= i < |s| ==> Tradable(s[i])
  }

  /** The readable levels, the best price first. */
  function Book(raws: seq<RawLevel>): seq<Level> {
    Sort(Readable(raws), ByPrice)
  }

  /** The parser; None when an exception leaves it. */
  method ParseLevels(raws: seq<RawLevel>) returns (r: Option<seq<Level>>)
    ensures r == Parsed(raws)
  {
    var out: seq<Level> := [];
    for i := 0 to |raws|
      invariant AllCaught(raws[..i]) && out == Readable(raws[..i])
    {
      assert Init(raws[..i + 1]) == raws[..i] && Last(raws[..i + 1]) == raws[i];
      match ReadLevel(raws[i]) {
        case Uncaught => return None;
        case Skipped =>
        case Read(l) => out := out + [l];
      }
    }
    assert raws[..|raws|] == raws;
    return Some(Sort(out, ByPrice));
  }

  lemma {:induction false} ReadableIsTradable(raws: seq<RawLevel>)
    ensures AllTradable(Readable(raws))
  {
    if raws != [] { ReadableIsTradable(Init(raws)); }
  }

  /** A parsed book falls in price, holds only tradable levels, and loses and invents none of the readable ones. */
  lemma ParsedBook(raws: seq<RawLevel>)
    ensures Falling(Sort(Readable(raws), ByPrice)) && AllTradable(Sort(Readable(raws), ByPrice))
    ensures multiset(Sort(Readable(raws), ByPrice)) == multiset(Readable(raws))
  {
    SortSorts(Readable(raws), ByPrice);
    assert forall l: Level, m: Level :: ByPrice(l) <= ByPrice(m) <==> l.price >= m.price;
    ReadableIsTradable(raws);
    forall i | 0 <= i < |Sort(Readable(raws), ByPrice)| ensures Tradable(Sort(Readable(raws), ByPrice)[i]) {
      assert Sort(Readable(raws), ByPrice)[i] in multiset(Readable(raws));
    }
  }

  /** What the parser makes of a response. */
  function Parsed(raws: seq<RawLevel>): Option<seq<Level>> {
    if AllCaught(raws) then Some(Book(raws)) else None
  }

  /**
   * The first field is the price, in cents or in dollars, and the second the size, of which the whole contracts count;
   * what follows them changes nothing.
   */
  lemma LevelReads(p: int, q: int, price: real, size: real, more: seq<Field>)
    requires 0 < p < 100 && q > 0 && (price == p as real || price == p as real / 100.0)
    requires q as real <= size < q as real + 1.0
    ensures Parsed([Items([Number(price), Number(size)] + more)]) == Some([Level(p, q)])
  {
    var raw := Items([Number(price), Number(size)] + more);
    DollarsAndCents(p);
    assert raw.fields[0] == Number(price) && raw.fields[1] == Number(size);
    assert ReadLevel(raw) == Read(Level(p, q));
    assert Init([raw]) == [] && Readable([]) == [];
    assert Readable([raw]) == [Level(p, q)];
    assert Init([Level(p, q)]) == [] && Sort([Level(p, q)], ByPrice) == [Level(p, q)];
  }

  // --- the replay ------------------------------------------------------------------------------

  datatype Side = Yes | No
  datatype Action = Buy | Sell
  datatype Style = Taker | Maker

  datatype Order = Order(side: Side, action: Action, style: Style, quantity: int, filled: int, limit: Option<int>)

  datatype Verdict =
    | NothingRemaining
    | NoDepth
    | WouldNotFill(best: int)
    | WouldFill(fillable: int, remaining: int, best: int)
    | NoLimit
    | Resting(market: Option<int>, fills: bool)

  /** Buying one side consumes the other side's bids at 100 minus the bid. */
  function TakerLevels(side: Side, yes: seq<Level>, no: seq<Level>): seq<Level> {
    Flipped(if side.Yes? then no else yes)
  }

  function Flipped(bids: seq<Level>): seq<Level> {
    if bids == [] then []
    else
      Flipped(Init(bids)) +
      (if 0 < 100 - Last(bids).price < 100 then [Level(100 - Last(bids).price, Last(bids).qty)] else [])
  }

  /** The levels an order consumes or trades against, best first. */
  function Against(o: Order, yes: seq<Level>, no: seq<Level>): seq<Level> {
    if o.action.Buy? then TakerLevels(o.side, yes, no) else if o.side.Yes? then yes else no
  }

  function Admits(action: Action, limit: Option<int>, price: int): bool {
    limit.None? || (if action.Buy? then price <= limit.value else price >= limit.value)
  }

  function Min(a: int, b: int): int {
    if a <= b then a else b
  }

  /** Depth in front of the first level that the limit refuses. */
  function Reachable(levels: seq<Level>, action: Action, limit: Option<int>): int {
    if levels == [] || !Admits(action, limit, levels[0].price) then 0
    else levels[0].qty + Reachable(levels[1..], action, limit)
  }

  ghost predicate Positive(levels: seq<Level>) {
    forall i :: 0 <= i < |levels| ==> levels[i].qty > 0
  }

  lemma {:induction false} ReachablePositive(levels: seq<Level>, action: Action, limit: Option<int>)
    requires Positive(levels)
    ensures Reachable(levels, action, limit) >= 0
    ensures Reachable(levels, action, limit) > 0 <==> levels != [] && Admits(action, limit, levels[0].price)
  {
    if levels != [] { ReachablePositive(levels[1..], action, limit); }
  }

  lemma {:induction false} FlippedPositive(bids: seq<Level>)
    requires Positive(bids)
    ensures Positive(Flipped(bids))
  {
    if bids != [] { FlippedPositive(Init(bids)); }
  }

  /** A bid of p is an offer of the other side at 100 - p, when that is a price. */
  lemma OfferAt(p: int, q: int)
    ensures Flipped([Level(p, q)]) == if 0 < p < 100 then [Level(100 - p, q)] else []
  {
    assert Init([Level(p, q)]) == [];
  }

  /** The replay of one order against parsed bids. */
  method Judge(o: Order, yes: seq<Level>, no: seq<Level>) returns (v: Verdict)
    requires Positive(yes) && Positive(no)
    ensures o.quantity <= o.filled ==> v == NothingRemaining
    ensures o.quantity > o.filled && o.style.Taker? ==>
              var levels := Against(o, yes, no);
              var fillable := Min(o.quantity - o.filled, Reachable(levels, o.action, o.limit));
              v == if levels == [] then NoDepth
                   else if fillable == 0 then WouldNotFill(levels[0].price)
                   else WouldFill(fillable, o.quantity - o.filled, levels[0].price)
    ensures o.quantity > o.filled && o.style.Maker? ==>
              v == if o.limit.None? then NoLimit else MakerVerdict(o, Against(o, yes, no))
  {
    hide Reachable, Flipped;
    var remaining := o.quantity - o.filled;
    if remaining <= 0 { return NothingRemaining; }
    var levels := Against(o, yes, no);
    FlippedPositive(yes);
    FlippedPositive(no);
    if o.style.Maker? {
      if o.limit.None? { return NoLimit; }
      if levels == [] { return Resting(None, false); }
      var best := levels[0].price;
      return Resting(Some(best), if o.action.Buy? then best < o.limit.value else best > o.limit.value);
    }
    if levels == [] { return NoDepth; }
    var fillable := Walk(levels, o.action, o.limit, remaining);
    if fillable <= 0 { return WouldNotFill(levels[0].price); }
    return WouldFill(fillable, remaining, levels[0].price);
  }

  /** The greedy walk of the taker branch. */
  method Walk(levels: seq<Level>, action: Action, limit: Option<int>, remaining: int) returns (fillable: int)
    requires Positive(levels) && remaining > 0
    ensures fillable == Min(remaining, Reachable(levels, action, limit)) >= 0
  {
    fillable := 0;
    var i := 0;
    ReachablePositive(levels, action, limit);
    while i < |levels|
      invariant 0 <= i <= |levels| && 0 <= fillable < remaining
      invariant fillable + Reachable(levels[i..], action, limit) == Reachable(levels, action, limit)
    {
      var price, depth := levels[i].price, levels[i].qty;
      assert levels[i..][0] == levels[i] && levels[i..][1..] == levels[i + 1..];
      ReachablePositive(levels[i + 1..], action, limit);
      if limit.Some? && action.Buy? && price > limit.value { break; }
      if limit.Some? && action.Sell? && price < limit.value { break; }
      fillable := fillable + Min(remaining - fillable, depth);
      if fillable >= remaining { break; }
      i := i + 1;
    }
  }

  /** A maker order fills only when the market trades strictly through its limit. */
  function MakerVerdict(o: Order, levels: seq<Level>): Verdict
    requires o.limit.Some?
  {
    if levels == [] then Resting(None, false)
    else
      var best := levels[0].price;
      Resting(Some(best), if o.action.Buy? then best < o.limit.value else best > o.limit.value)
  }

  // --- what the walk is for --------------------------------------------------------------------

  /** The price an order pays or receives at a raw bid. */
  function PriceAt(action: Action, bid: int): int {
    if action.Buy? then 100 - bid else bid
  }

  /** All the depth of a raw response whose price the limit admits, in whatever order it comes. */
  function Depth(raws: seq<RawLevel>, action: Action, limit: Option<int>): int {
    if raws == [] then 0
    else
      Depth(Init(raws), action, limit) +
      match ReadLevel(Last(raws))
      case Read(l) => if Admits(action, limit, PriceAt(action, l.price)) then l.qty else 0
      case _ => 0
  }

  function Total(bids: seq<Level>, action: Action, limit: Option<int>): int {
    if bids == [] then 0 else Total(Init(bids), action, limit) + Share(Last(bids), action, limit)
  }

  function Share(l: Level, action: Action, limit: Option<int>): int {
    if Admits(action, limit, PriceAt(action, l.price)) then l.qty else 0
  }

  lemma {:induction false} InsertTotal(s: seq<Level>, x: Level, action: Action, limit: Option<int>)
    ensures Total(Insert(s, x, ByPrice), action, limit) == Total(s, action, limit) + Share(x, action, limit)
  {
    if s == [] || Last(s).price >= x.price {
      assert Init(s + [x]) == s;
    } else {
      InsertTotal(Init(s), x, action, limit);
      assert Init(Insert(s, x, ByPrice)) == Insert(Init(s), x, ByPrice);
    }
  }

  lemma {:induction false} SortTotal(s: seq<Level>, action: Action, limit: Option<int>)
    ensures Total(Sort(s, ByPrice), action, limit) == Total(s, action, limit)
  {
    if s != [] {
      SortTotal(Init(s), action, limit);
      InsertTotal(Sort(Init(s), ByPrice), Last(s), action, limit);
    }
  }

  lemma {:induction false} ReadableTotal(raws: seq<RawLevel>, action: Action, limit: Option<int>)
    ensures Total(Readable(raws), action, limit) == Depth(raws, action, limit)
  {
    if raws != [] {
      ReadableTotal(Init(raws), action, limit);
      match ReadLevel(Last(raws)) {
        case Read(l) => assert Init(Readable(Init(raws)) + [l]) == Readable(Init(raws));
        case _ => assert Readable(raws) == Readable(Init(raws));
      }
    }
  }

  /** Bids as the order meets them. */
  function Met(bids: seq<Level>, action: Action): seq<Level> {
    if action.Buy? then Flipped(bids) else bids
  }

  lemma {:induction false} MetAt(bids: seq<Level>, action: Action)
    requires AllTradable(bids)
    ensures |Met(bids, action)| == |bids|
    ensures forall i :: 0 <= i < |bids| ==> Met(bids, action)[i] == Level(PriceAt(action, bids[i].price), bids[i].qty)
  {
    if action.Buy? && bids != [] {
      MetAt(Init(bids), action);
    }
  }

  lemma {:induction false} TotalFront(bids: seq<Level>, action: Action, limit: Option<int>)
    requires bids != []
    ensures Total(bids, action, limit) == Share(bids[0], action, limit) + Total(bids[1..], action, limit)
  {
    if |bids| == 1 {
      assert Init(bids) == [] && bids[1..] == [];
    } else {
      TotalFront(Init(bids), action, limit);
      assert Init(bids)[1..] == Init(bids[1..]);
    }
  }

  lemma {:induction false} RefusedTotal(bids: seq<Level>, action: Action, limit: Option<int>)
    requires forall i :: 0 <= i < |bids| ==> !Admits(action, limit, PriceAt(action, bids[i].price))
    ensures Total(bids, action, limit) == 0
  {
    if bids != [] { RefusedTotal(Init(bids), action, limit); }
  }

  /** Stopping at the first refused level misses nothing in a book that falls in price. */
  lemma {:induction false} StoppingEarly(bids: seq<Level>, levels: seq<Level>, action: Action, limit: Option<int>)
    requires Falling(bids) && |levels| == |bids|
    requires forall i :: 0 <= i < |bids| ==> levels[i] == Level(PriceAt(action, bids[i].price), bids[i].qty)
    ensures Reachable(levels, action, limit) == Total(bids, action, limit)
  {
    if bids != [] {
      if Admits(action, limit, levels[0].price) {
        TotalFront(bids, action, limit);
        StoppingEarly(bids[1..], levels[1..], action, limit);
      } else {
        RefusedTotal(bids, action, limit);
      }
    }
  }

  /** The response whose bids an order trades against. */
  function Facing(o: Order, yes: seq<RawLevel>, no: seq<RawLevel>): seq<RawLevel> {
    if o.action.Buy? == o.side.Yes? then no else yes
  }

  /**
   * On any parsed book the walk reaches all the depth at admissible prices, although it sees the levels reversed in
   * price for a buy and stops at the first one it refuses: the fill is min(remaining, total admissible depth).
   */
  lemma WalkReachesAllDepth(o: Order, yes: seq<RawLevel>, no: seq<RawLevel>)
    ensures Reachable(Against(o, Book(yes), Book(no)), o.action, o.limit)
            == Depth(Facing(o, yes, no), o.action, o.limit)
  {
    var raws := Facing(o, yes, no);
    ParsedBook(raws);
    MetAt(Book(raws), o.action);
    StoppingEarly(Book(raws), Met(Book(raws), o.action), o.action, o.limit);
    SortTotal(Readable(raws), o.action, o.limit);
    ReadableTotal(raws, o.action, o.limit);
  }

  /** A limit that admits every price the other one admits. */
  predicate Looser(action: Action, limit': Option<int>, limit: Option<int>) {
    limit'.None? || (limit.Some? && if action.Buy? then limit.value <= limit'.value else limit'.value <= limit.value)
  }

  lemma {:induction false} LooserLimitReachesMore(raws: seq<RawLevel>, action: Action, limit: Option<int>,
                                                  limit': Option<int>)
    requires Looser(action, limit', limit)
    ensures 0 <= Depth(raws, action, limit) <= Depth(raws, action, limit')
  {
    if raws != [] { LooserLimitReachesMore(Init(raws), action, limit, limit'); }
  }

  /** Contracts a taker order would get from a raw book right now. */
  function Fill(o: Order, yes: seq<RawLevel>, no: seq<RawLevel>): int {
    Min(o.quantity - o.filled, Reachable(Against(o, Book(yes), Book(no)), o.action, o.limit))
  }

  /** Loosening the limit never lowers the fill. */
  lemma FillMonotone(o: Order, limit': Option<int>, yes: seq<RawLevel>, no: seq<RawLevel>)
    requires Looser(o.action, limit', o.limit)
    ensures Fill(o, yes, no) <= Fill(o.(limit := limit'), yes, no)
  {
    WalkReachesAllDepth(o, yes, no);
    WalkReachesAllDepth(o.(limit := limit'), yes, no);
    LooserLimitReachesMore(Facing(o, yes, no), o.action, o.limit, limit');
  }

  /** A maker buy at L fills exactly when a taker buy at L - 1 would get a contract; dually for sells at L + 1. */
  lemma MakerFillsOneInside(o: Order, yes: seq<RawLevel>, no: seq<RawLevel>)
    requires o.limit.Some? && o.quantity > o.filled
    ensures MakerVerdict(o, Against(o, Book(yes), Book(no))).fills
            <==> Fill(o.(limit := Some(if o.action.Buy? then o.limit.value - 1 else o.limit.value + 1)), yes, no) >= 1
  {
    var bids := Book(Facing(o, yes, no));
    var limit' := Some(if o.action.Buy? then o.limit.value - 1 else o.limit.value + 1);
    ParsedBook(Facing(o, yes, no));
    MetAt(bids, o.action);
    ReachablePositive(Met(bids, o.action), o.action, limit');
  }

  /**
   * From a response to a fill: against one level of q contracts at p cents, a buyer of the other side pays 100 - p and
   * a seller of the same side receives p, whichever side it is.
   */
  lemma OneLevelFill(p: int, q: int, side: Side, quantity: int, filled: int, limit: int)
    requires 0 < p < 100 && q > 0 && filled < quantity
    ensures var raws := [Items([Number(p as real), Number(q as real)])];
            var n := if quantity - filled < q then quantity - filled else q;
            var (yes, no) := if side.Yes? then (raws, []) else ([], raws);
            var other := if side.Yes? then No else Yes;
      && Fill(Order(side, Sell, Taker, quantity, filled, Some(limit)), yes, no) == (if p >= limit then n else 0)
      && Fill(Order(other, Buy, Taker, quantity, filled, Some(limit)), yes, no) == (if 100 - p <= limit then n else 0)
      && Fill(Order(other, Sell, Taker, quantity, filled, None), yes, no) == 0
      && Fill(Order(side, Buy, Taker, quantity, filled, None), yes, no) == 0
  {
    var raws := [Items([Number(p as real), Number(q as real)])];
    var l := Level(p, q);
    assert [Number(p as real), Number(q as real)] + [] == [Number(p as real), Number(q as real)];
    LevelReads(p, q, p as real, q as real, []);
    assert Book(raws) == [l] && Book([]) == [];
    assert Init([l]) == [] && Flipped([]) == [] && Flipped([l]) == [Level(100 - p, q)];
    OneReachable(l, Sell, Some(limit));
    OneReachable(Level(100 - p, q), Buy, Some(limit));
    hide Book, Flipped, Reachable;
  }

  /** And a maker order against it: the market it meets, and that it fills only when traded through. */
  lemma OneLevelMaker(p: int, q: int, side: Side, quantity: int, filled: int, limit: int)
    requires 0 < p < 100 && q > 0
    ensures var levels := [Level(p, q)];
            var (yes, no) := if side.Yes? then (levels, []) else ([], levels);
            var other := if side.Yes? then No else Yes;
            var sell, buy := Order(side, Sell, Maker, quantity, filled, Some(limit)),
                             Order(other, Buy, Maker, quantity, filled, Some(limit));
      && MakerVerdict(sell, Against(sell, yes, no)) == Resting(Some(p), p > limit)
      && MakerVerdict(buy, Against(buy, yes, no)) == Resting(Some(100 - p), 100 - p < limit)
      && MakerVerdict(sell, Against(sell, no, yes)) == MakerVerdict(buy, Against(buy, no, yes)) == Resting(None, false)
  {
    OfferAt(p, q);
    assert Flipped([]) == [];
  }

  lemma OneReachable(l: Level, action: Action, limit: Option<int>)
    ensures Reachable([l], action, limit) == (if Admits(action, limit, l.price) then l.qty else 0)
    ensures Reachable([], action, None) == 0
  {
    assert [l][1..] == [];
  }
}
