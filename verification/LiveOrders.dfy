// Live order rows and what the book derives from them: money committed, and tickers that are open.
module LiveOrders {
  import opened Prelude
  import opened Positions

  datatype Status = Pending | Unknown | Submitted | Resting | Partial | Filled | Rejected | Canceled | NotLanded

  datatype Order = Order(strategy: string, ticker: string, event: Option<string>, buy: bool,
                         price: Option<int>, quantity: Option<int>, clientId: Option<string>,
                         orderId: Option<string>, status: Status, reason: Option<string>)

  datatype Fill = Fill(orderId: Option<string>, quantity: Option<int>)

  predicate NonTerminal(s: Status) {
    s in {Pending, Unknown, Submitted, Resting, Partial}
  }

  predicate Committed(s: Status) {
    NonTerminal(s) || s in {Filled, Rejected}
  }

  /** Orders that can only net a held position flat. */
  predicate Closing(clientId: Option<string>) {
    clientId.Some? && "limmexitleg:" <= clientId.value
  }

  /** Sum of the recorded fills of an exchange order; rows without a quantity add nothing. */
  function Got(fills: seq<Fill>, orderId: string): int {
    if fills == [] then 0
    else
      Got(Init(fills), orderId) +
      (if Last(fills).orderId == Some(orderId) && Last(fills).quantity.Some? then Last(fills).quantity.value else 0)
  }

  predicate Buys(o: Order, strategy: string) {
    o.strategy == strategy && o.buy
  }

  predicate StillOpen(s: Status) {
    NonTerminal(s) || s.Filled?
  }

  /** A cancelled buy that bought something before it was cancelled. */
  predicate PartFilledCancel(o: Order, fills: seq<Fill>) {
    o.status.Canceled? && o.reason in {Some("partial_fill"), Some("gone_from_exchange")}
    && o.orderId.Some? && Got(fills, o.orderId.value) > 0
  }

  // --- money committed -------------------------------------------------------------------------

  datatype Entry = Entry(ticker: string, price: Option<int>, quantity: Option<int>, clientId: Option<string>)

  function OpenEntry(o: Order, strategy: string): seq<Entry> {
    if Buys(o, strategy) && StillOpen(o.status) then [Entry(o.ticker, o.price, o.quantity, o.clientId)] else []
  }

  /** A cancelled order enters with what it bought, and without its client id. */
  function HeldEntry(o: Order, fills: seq<Fill>, strategy: string): seq<Entry> {
    if Buys(o, strategy) && PartFilledCancel(o, fills) then
      [Entry(o.ticker, o.price, Some(Got(fills, o.orderId.value)), None)]
    else []
  }

  function OpenEntries(orders: seq<Order>, strategy: string): seq<Entry> {
    if orders == [] then [] else OpenEntries(Init(orders), strategy) + OpenEntry(Last(orders), strategy)
  }

  function HeldEntries(orders: seq<Order>, fills: seq<Fill>, strategy: string): seq<Entry> {
    if orders == [] then [] else HeldEntries(Init(orders), fills, strategy) + HeldEntry(Last(orders), fills, strategy)
  }

  /** The order adds money at risk: not a closing leg, its ticker not flat, price and size known. */
  predicate Counts(o: Order, fills: seq<Fill>, positions: seq<Snapshot>, strategy: string) {
    && Buys(o, strategy) && !Flat(positions, o.ticker) && o.price.Some?
    && ((StillOpen(o.status) && !Closing(o.clientId) && o.quantity.Some?) || PartFilledCancel(o, fills))
  }

  /** Cents one order commits: its whole size while open, what it bought once cancelled. */
  function Share(o: Order, fills: seq<Fill>, positions: seq<Snapshot>, strategy: string): int {
    if !Counts(o, fills, positions, strategy) then 0
    else o.price.value * (if StillOpen(o.status) then o.quantity.value else Got(fills, o.orderId.value))
  }

  function Exposure(orders: seq<Order>, fills: seq<Fill>, positions: seq<Snapshot>, strategy: string): int {
    if orders == [] then 0
    else Exposure(Init(orders), fills, positions, strategy) + Share(Last(orders), fills, positions, strategy)
  }

  function EntryShare(e: Entry, positions: seq<Snapshot>): int {
    if Closing(e.clientId) || Flat(positions, e.ticker) || e.price.None? || e.quantity.None? then 0
    else e.price.value * e.quantity.value
  }

  function EntrySum(entries: seq<Entry>, positions: seq<Snapshot>): int {
    if entries == [] then 0 else EntrySum(Init(entries), positions) + EntryShare(Last(entries), positions)
  }

  lemma {:induction false} EntrySumAppend(a: seq<Entry>, b: seq<Entry>, positions: seq<Snapshot>)
    ensures EntrySum(a + b, positions) == EntrySum(a, positions) + EntrySum(b, positions)
  {
    if b == [] {
      assert a + b == a;
    } else {
      assert Init(a + b) == a + Init(b);
      EntrySumAppend(a, Init(b), positions);
    }
  }

  lemma EntrySumOne(e: Entry, positions: seq<Snapshot>)
    ensures EntrySum([e], positions) == EntryShare(e, positions) && EntrySum([], positions) == 0
  {
    assert Init([e]) == [];
  }

  /** The two queries together give every order its share once. */
  lemma {:induction false} EntriesAreShares(orders: seq<Order>, fills: seq<Fill>, positions: seq<Snapshot>,
                                            strategy: string)
    ensures EntrySum(OpenEntries(orders, strategy) + HeldEntries(orders, fills, strategy), positions)
            == Exposure(orders, fills, positions, strategy)
  {
    hide EntrySum;
    if orders == [] {
      assert OpenEntries(orders, strategy) + HeldEntries(orders, fills, strategy) == [];
      EntrySumOne(Entry("", None, None, None), positions);
    } else {
      var o := Last(orders);
      hide OpenEntry, HeldEntry, Share;
      EntriesAreShares(Init(orders), fills, positions, strategy);
      EntrySumAppend(OpenEntries(Init(orders), strategy), HeldEntries(Init(orders), fills, strategy), positions);
      EntrySumAppend(OpenEntries(orders, strategy), HeldEntries(orders, fills, strategy), positions);
      EntrySumAppend(OpenEntries(Init(orders), strategy), OpenEntry(o, strategy), positions);
      EntrySumAppend(HeldEntries(Init(orders), fills, strategy), HeldEntry(o, fills, strategy), positions);
      OneOrder(o, fills, positions, strategy);
    }
  }

  lemma OneOrder(o: Order, fills: seq<Fill>, positions: seq<Snapshot>, strategy: string)
    ensures EntrySum(OpenEntry(o, strategy), positions) + EntrySum(HeldEntry(o, fills, strategy), positions)
            == Share(o, fills, positions, strategy)
  {
    hide EntrySum, Flat, Got, Closing;
    assert !Closing(None) by { UnnamedIsNotClosing(); }
    EntrySumOne(Entry(o.ticker, o.price, o.quantity, o.clientId), positions);
    if o.orderId.Some? { EntrySumOne(Entry(o.ticker, o.price, Some(Got(fills, o.orderId.value)), None), positions); }
  }

  lemma UnnamedIsNotClosing()
    ensures !Closing(None)
  {
  }

  // --- open tickers ----------------------------------------------------------------------------

  datatype Footing = Footing(ticker: string, event: Option<string>, status: Status)

  function OpenFootings(orders: seq<Order>, strategy: string): seq<Footing> {
    if orders == [] then []
    else
      var o := Last(orders);
      OpenFootings(Init(orders), strategy) +
      (if Buys(o, strategy) && StillOpen(o.status) then [Footing(o.ticker, o.event, o.status)] else [])
  }

  function HeldFootings(orders: seq<Order>, fills: seq<Fill>, strategy: string): seq<Footing> {
    if orders == [] then []
    else
      var o := Last(orders);
      HeldFootings(Init(orders), fills, strategy) +
      (if Buys(o, strategy) && PartFilledCancel(o, fills) then [Footing(o.ticker, o.event, Filled)] else [])
  }

  function Footings(orders: seq<Order>, fills: seq<Fill>, strategy: string): seq<Footing> {
    OpenFootings(orders, strategy) + HeldFootings(orders, fills, strategy)
  }

  /** An order of the book is still working on the ticker. */
  ghost predicate WorkingOn(orders: seq<Order>, strategy: string, ticker: string) {
    exists o :: o in orders && Buys(o, strategy) && o.ticker == ticker && NonTerminal(o.status)
  }

  /** An order of the book bought something on the ticker and is done. */
  ghost predicate BoughtOn(orders: seq<Order>, fills: seq<Fill>, strategy: string, ticker: string) {
    exists o ::
      o in orders && Buys(o, strategy) && o.ticker == ticker && (o.status.Filled? || PartFilledCancel(o, fills))
  }

  ghost predicate IsOpen(orders: seq<Order>, fills: seq<Fill>, positions: seq<Snapshot>, strategy: string,
                         ticker: string)
  {
    WorkingOn(orders, strategy, ticker) || (BoughtOn(orders, fills, strategy, ticker) && !Flat(positions, ticker))
  }

  /** First event name recorded for a ticker; an empty one does not count. */
  function EventOf(rows: seq<Footing>, ticker: string): string {
    if rows == [] then ""
    else
      var before := EventOf(Init(rows), ticker);
      if before == "" && Last(rows).ticker == ticker && Last(rows).event.Some? then Last(rows).event.value else before
  }

  predicate Nameless(r: Footing, ticker: string) {
    r.ticker != ticker || r.event.None? || r.event.value == ""
  }

  /** The event name is that of the first row of the ticker that has one. */
  lemma {:induction false} EventIsFirst(rows: seq<Footing>, ticker: string, i: nat)
    requires i < |rows| && forall j :: 0 <= j < i ==> Nameless(rows[j], ticker)
    ensures !Nameless(rows[i], ticker) ==> EventOf(rows, ticker) == rows[i].event.value
    ensures (forall j :: 0 <= j < |rows| ==> Nameless(rows[j], ticker)) ==> EventOf(rows, ticker) == ""
  {
    var n := |rows| - 1;
    if n > 0 {
      assert forall j :: 0 <= j < n ==> Init(rows)[j] == rows[j];
      EventIsFirst(Init(rows), ticker, if i < n then i else 0);
    } else {
      assert Init(rows) == [];
    }
  }

  function StatusesOf(rows: seq<Footing>, ticker: string): set<Status> {
    set r | r in rows && r.ticker == ticker :: r.status
  }

  lemma {:induction false} FootingsOf(orders: seq<Order>, fills: seq<Fill>, strategy: string, r: Footing)
    ensures r in OpenFootings(orders, strategy)
            <==> exists o ::
                   o in orders && Buys(o, strategy) && StillOpen(o.status) && r == Footing(o.ticker, o.event, o.status)
    ensures r in HeldFootings(orders, fills, strategy)
            <==> exists o ::
                   o in orders && Buys(o, strategy) && PartFilledCancel(o, fills)
                   && r == Footing(o.ticker, o.event, Filled)
  {
    if orders != [] {
      hide PartFilledCancel, Buys, StillOpen;
      FootingsOf(Init(orders), fills, strategy, r);
      assert orders == Init(orders) + [Last(orders)];
      assert forall o :: o in orders <==> o in Init(orders) || o == Last(orders);
    }
  }

  /** What the collected statuses of a ticker say about the orders. */
  lemma StatusesMean(orders: seq<Order>, fills: seq<Fill>, strategy: string, ticker: string)
    ensures var seen := StatusesOf(Footings(orders, fills, strategy), ticker);
            (seen - {Filled} != {} <==> WorkingOn(orders, strategy, ticker))
            && (Filled in seen <==> BoughtOn(orders, fills, strategy, ticker))
  {
    var rows := Footings(orders, fills, strategy);
    var seen := StatusesOf(rows, ticker);
    forall o | o in orders && Buys(o, strategy) && o.ticker == ticker && StillOpen(o.status) ensures o.status in seen {
      FootingsOf(orders, fills, strategy, Footing(o.ticker, o.event, o.status));
      assert Footing(o.ticker, o.event, o.status) in rows;
    }
    forall o | o in orders && Buys(o, strategy) && o.ticker == ticker && PartFilledCancel(o, fills)
      ensures Filled in seen
    {
      FootingsOf(orders, fills, strategy, Footing(o.ticker, o.event, Filled));
      assert Footing(o.ticker, o.event, Filled) in rows;
    }
    forall r | r in rows && r.ticker == ticker
      ensures NonTerminal(r.status) ==> WorkingOn(orders, strategy, ticker)
      ensures NonTerminal(r.status) || (r.status.Filled? && BoughtOn(orders, fills, strategy, ticker))
    {
      FootingsOf(orders, fills, strategy, r);
    }
    hide PartFilledCancel;
    if WorkingOn(orders, strategy, ticker) {
      var o :| o in orders && Buys(o, strategy) && o.ticker == ticker && NonTerminal(o.status);
      assert o.status in seen - {Filled};
    }
  }

  // --- the two reports describe the same book --------------------------------------------------

  /** Every order that is counted sits on an open ticker. */
  lemma CountedIsOpen(orders: seq<Order>, fills: seq<Fill>, positions: seq<Snapshot>, strategy: string, o: Order)
    requires o in orders && Counts(o, fills, positions, strategy)
    ensures IsOpen(orders, fills, positions, strategy, o.ticker)
  {
    hide Flat, Got;
    if NonTerminal(o.status) {
      assert WorkingOn(orders, strategy, o.ticker);
    } else {
      assert BoughtOn(orders, fills, strategy, o.ticker);
    }
  }

  /** The order's ticker would be open because of it, but it adds no money: a closing leg, or price or size unknown. */
  predicate Uncountable(o: Order, fills: seq<Fill>) {
    o.price.None? || (StillOpen(o.status) && (Closing(o.clientId) || o.quantity.None?))
  }

  ghost predicate NothingCounted(orders: seq<Order>, fills: seq<Fill>, positions: seq<Snapshot>, strategy: string,
                                 ticker: string)
  {
    forall o :: o in orders && o.ticker == ticker ==> !Counts(o, fills, positions, strategy)
  }

  ghost predicate AllUncountable(orders: seq<Order>, fills: seq<Fill>, strategy: string, ticker: string) {
    forall o ::
      o in orders && o.ticker == ticker && Buys(o, strategy) && (StillOpen(o.status) || PartFilledCancel(o, fills))
      ==> Uncountable(o, fills)
  }

  /**
   * An open ticker adds nothing exactly when all its orders are closing legs or lack price or size, or when its newest
   * snapshot is flat; and in the second case an order is still working there.
   */
  lemma OpenWithoutExposure(orders: seq<Order>, fills: seq<Fill>, positions: seq<Snapshot>, strategy: string,
                            ticker: string)
    requires IsOpen(orders, fills, positions, strategy, ticker)
    ensures NothingCounted(orders, fills, positions, strategy, ticker)
            <==> AllUncountable(orders, fills, strategy, ticker) || Flat(positions, ticker)
    ensures Flat(positions, ticker) ==> WorkingOn(orders, strategy, ticker)
  {
    hide Flat, Got, Closing;
    if !Flat(positions, ticker) && !AllUncountable(orders, fills, strategy, ticker) {
      var o :| o in orders && o.ticker == ticker && Buys(o, strategy)
          && (StillOpen(o.status) || PartFilledCancel(o, fills))
               && !Uncountable(o, fills);
      assert Counts(o, fills, positions, strategy);
    }
    forall o | o in orders && o.ticker == ticker && Counts(o, fills, positions, strategy)
      ensures !Flat(positions, ticker) && !AllUncountable(orders, fills, strategy, ticker)
    {
      assert !Uncountable(o, fills);
    }
  }

  ghost predicate PositiveTerms(orders: seq<Order>) {
    forall o :: o in orders ==> (o.price.Some? ==> o.price.value > 0) && (o.quantity.Some? ==> o.quantity.value > 0)
  }

  /** With positive prices and sizes no money is committed exactly when no order counts. */
  lemma {:induction false} NoExposure(orders: seq<Order>, fills: seq<Fill>, positions: seq<Snapshot>, strategy: string)
    requires PositiveTerms(orders)
    ensures Exposure(orders, fills, positions, strategy) >= 0
    ensures Exposure(orders, fills, positions, strategy) == 0
            <==> forall o :: o in orders ==> !Counts(o, fills, positions, strategy)
  {
    if orders != [] {
      var o := Last(orders);
      assert orders == Init(orders) + [o];
      NoExposure(Init(orders), fills, positions, strategy);
      ShareSign(o, fills, positions, strategy);
      hide Counts, Share;
    }
  }

  lemma ShareSign(o: Order, fills: seq<Fill>, positions: seq<Snapshot>, strategy: string)
    requires (o.price.Some? ==> o.price.value > 0) && (o.quantity.Some? ==> o.quantity.value > 0)
    ensures Share(o, fills, positions, strategy) >= 0
    ensures Share(o, fills, positions, strategy) == 0 <==> !Counts(o, fills, positions, strategy)
  {
    hide Flat, Got, Closing;
    if Counts(o, fills, positions, strategy) {
      Product(o.price.value, if StillOpen(o.status) then o.quantity.value else Got(fills, o.orderId.value));
    }
  }

  lemma Product(a: int, b: int)
    requires a > 0 && b > 0
    ensures a * b > 0
  {
  }

  /**
   * The two reports side by side: nothing committed means that every open ticker is flat or holds only uncountable
   * orders.
   */
  lemma ZeroExposureBook(orders: seq<Order>, fills: seq<Fill>, positions: seq<Snapshot>, strategy: string)
    requires PositiveTerms(orders)
    ensures Exposure(orders, fills, positions, strategy) == 0
            <==> forall t :: IsOpen(orders, fills, positions, strategy, t)
                             ==> AllUncountable(orders, fills, strategy, t) || Flat(positions, t)
  {
    hide IsOpen, AllUncountable, Counts, PositiveTerms, Flat;
    NoExposure(orders, fills, positions, strategy);
    forall t | IsOpen(orders, fills, positions, strategy, t)
      ensures NothingCounted(orders, fills, positions, strategy, t)
              <==> AllUncountable(orders, fills, strategy, t) || Flat(positions, t)
    {
      OpenWithoutExposure(orders, fills, positions, strategy, t);
    }
    forall o | o in orders && Counts(o, fills, positions, strategy)
      ensures IsOpen(orders, fills, positions, strategy, o.ticker)
    {
      CountedIsOpen(orders, fills, positions, strategy, o);
    }
  }

  /** Where the two part: an order rests while the newest snapshot still reads zero contracts. */
  lemma RestingOnAFlatTicker() returns (orders: seq<Order>, positions: seq<Snapshot>)
    ensures IsOpen(orders, [], positions, "book", "T") && Exposure(orders, [], positions, "book") == 0
    ensures Exposure(orders, [], [], "book") == 5000
  {
    orders := [Order("book", "T", None, true, Some(50), Some(100), None, None, Resting, None)];
    positions := [Snapshot("T", 0, Some(0), None, None, None)];
    assert orders[0] in orders && WorkingOn(orders, "book", "T");
    assert Init(orders) == [] && Init(positions) == [];
  }

  /** One order alone: which statuses count, and that only the prefix of the client id marks a closing leg. */
  lemma OneOrderCounts(o: Order, book: string)
    requires o.price.Some? && o.quantity.Some? && o.orderId.None?
    ensures Exposure([o], [], [], book)
            == if o.strategy == book && o.buy && o.status !in {Rejected, Canceled, NotLanded}
                  && (o.clientId.None? || |o.clientId.value| < 12 || o.clientId.value[..12] != "limmexitleg:")
               then o.price.value * o.quantity.value else 0
  {
    assert Init([o]) == [];
    if o.clientId.Some? { PrefixIs(o.clientId.value); }
  }

  lemma PrefixIs(id: string)
    ensures "limmexitleg:" <= id <==> |id| >= 12 && id[..12] == "limmexitleg:"
  {
    assert |"limmexitleg:"| == 12;
  }

  // --- changing one order ----------------------------------------------------------------------

  function Cut(reason: string): string {
    if |reason| <= 300 then reason else reason[..300]
  }

  function Updated(o: Order, status: Status, orderId: Option<string>, reason: Option<string>): Order {
    o.(status := status, orderId := if orderId.Some? then orderId else o.orderId,
       reason := if reason.Some? then Some(Cut(reason.value)) else o.reason)
  }

  lemma {:induction false} ExposureUpdate(orders: seq<Order>, i: nat, o': Order, fills: seq<Fill>,
                                          positions: seq<Snapshot>, strategy: string)
    requires i < |orders|
    ensures Exposure(orders[i := o'], fills, positions, strategy)
            == Exposure(orders, fills, positions, strategy) - Share(orders[i], fills, positions, strategy)
               + Share(o', fills, positions, strategy)
  {
    hide Share;
    if i == |orders| - 1 {
      assert Init(orders[i := o']) == Init(orders);
    } else {
      ExposureUpdate(Init(orders), i, o', fills, positions, strategy);
      assert Init(orders[i := o']) == Init(orders)[i := o'];
    }
  }

  function Bought(fills: seq<Fill>, orderId: string): nat {
    if Got(fills, orderId) > 0 then Got(fills, orderId) else 0
  }

  predicate CancelsPartFilled(reason: string) {
    reason == "partial_fill" || reason == "gone_from_exchange"
  }

  /** A working buy of the book with known terms and an exchange id, on a ticker that is not flat. */
  predicate Cancellable(o: Order, positions: seq<Snapshot>, strategy: string) {
    Buys(o, strategy) && NonTerminal(o.status) && o.orderId.Some? && o.price.Some? && o.quantity.Some?
    && !Flat(positions, o.ticker)
  }

  /**
   * Cancelling a working order with a part-filled reason gives back exactly limit x (quantity - filled), and keeps the
   * ticker open when something was filled. A closing leg is the exception: it was not counted while working, and
   * since its client id plays no part after the cancel, what it bought is counted from then on.
   */
  lemma CancelReleasesTheUnfilledPart(orders: seq<Order>, i: nat, fills: seq<Fill>, positions: seq<Snapshot>,
                                      strategy: string, reason: string)
    requires i < |orders| && Cancellable(orders[i], positions, strategy) && CancelsPartFilled(reason)
    ensures var o, got := orders[i], Bought(fills, orders[i].orderId.value);
            var orders' := orders[i := Updated(o, Canceled, None, Some(reason))];
            Exposure(orders', fills, positions, strategy) - Exposure(orders, fills, positions, strategy)
              == (if Closing(o.clientId) then o.price.value * got else -(o.price.value * (o.quantity.value - got)))
            && (got > 0 ==> IsOpen(orders', fills, positions, strategy, o.ticker))
  {
    hide Flat, Got, Closing, Exposure;
    var o, got := orders[i], Bought(fills, orders[i].orderId.value);
    var o' := Updated(o, Canceled, None, Some(reason));
    ExposureUpdate(orders, i, o', fills, positions, strategy);
    assert got > 0 ==> PartFilledCancel(o', fills);
    Distribute(o.price.value, o.quantity.value, got);
    if got > 0 {
      assert orders[i := o'][i] == o';
      assert BoughtOn(orders[i := o'], fills, strategy, o.ticker);
    }
  }

  /**
   * A resting exit leg, not counted at 85 cents x 100, counts 85 x 40 once it is cancelled with 40 contracts bought.
   */
  lemma CancelledClosingLegCounts() returns (o: Order, fills: seq<Fill>)
    ensures Closing(o.clientId) && NonTerminal(o.status)
    ensures Exposure([o], fills, [], "book") == 0
    ensures Exposure([Updated(o, Canceled, None, Some("gone_from_exchange"))], fills, [], "book") == 3400
    ensures IsOpen([Updated(o, Canceled, None, Some("gone_from_exchange"))], fills, [], "book", "T")
  {
    o := Order("book", "T", None, true, Some(85), Some(100), Some("limmexitleg:" + "1"), Some("K"), Resting, None);
    fills := [Fill(Some("K"), Some(40))];
    assert Init(fills) == [] && Got(fills, "K") == 40;
    var o' := Updated(o, Canceled, None, Some("gone_from_exchange"));
    assert Init([o]) == [] && Init([o']) == [];
    assert Counts(o', fills, [], "book");
    CountedIsOpen([o'], fills, [], "book", o');
  }

  // --- fills -----------------------------------------------------------------------------------

  /** What an order got is a sum over its own fills, in whatever order they were stored. */
  lemma {:induction false} GotAdds(a: seq<Fill>, b: seq<Fill>, orderId: string)
    ensures Got(a + b, orderId) == Got(a, orderId) + Got(b, orderId)
    ensures forall q :: Got([Fill(Some(orderId), Some(q))], orderId) == q
    ensures forall f: Fill :: f.orderId != Some(orderId) || f.quantity.None? ==> Got([f], orderId) == 0
  {
    forall f: Fill ensures Init([f]) == [] && Last([f]) == f {
    }
    if b == [] {
      assert a + b == a;
    } else {
      assert Init(a + b) == a + Init(b);
      GotAdds(a, Init(b), orderId);
    }
  }

  /** Of the orders only this one has the exchange id. */
  ghost predicate OnlyOrder(orders: seq<Order>, i: nat, orderId: string)
    requires i < |orders|
  {
    forall j :: 0 <= j < |orders| ==> (orders[j].orderId == Some(orderId) <==> j == i)
  }

  lemma {:induction false} OtherSharesStay(orders: seq<Order>, fills: seq<Fill>, f: Fill, positions: seq<Snapshot>,
                                           strategy: string)
    requires forall j :: 0 <= j < |orders| ==> orders[j].orderId.None? || orders[j].orderId != f.orderId
    ensures Exposure(orders, fills + [f], positions, strategy) == Exposure(orders, fills, positions, strategy)
  {
    if orders != [] {
      OtherSharesStay(Init(orders), fills, f, positions, strategy);
      hide Flat, Got, Closing;
      if Last(orders).orderId.Some? { GotAdds(fills, [f], Last(orders).orderId.value); }
    }
  }

  lemma {:induction false} OneShareMoves(orders: seq<Order>, i: nat, fills: seq<Fill>, f: Fill,
                                         positions: seq<Snapshot>, strategy: string)
    requires i < |orders| && f.orderId.Some? && OnlyOrder(orders, i, f.orderId.value)
    ensures Exposure(orders, fills + [f], positions, strategy) - Exposure(orders, fills, positions, strategy)
            == Share(orders[i], fills + [f], positions, strategy) - Share(orders[i], fills, positions, strategy)
  {
    hide Share;
    if i == |orders| - 1 {
      OtherSharesStay(Init(orders), fills, f, positions, strategy);
    } else {
      OneShareMoves(Init(orders), i, fills, f, positions, strategy);
      OtherSharesStay([Last(orders)], fills, f, positions, strategy);
      assert Init([Last(orders)]) == [];
    }
  }

  /**
   * A fill that arrives raises the money committed by exactly price x size when its order is a part-filled cancelled
   * buy of the book with a known price on a ticker that is not flat; for any other order it changes nothing.
   */
  lemma FillRaisesExposure(orders: seq<Order>, i: nat, fills: seq<Fill>, q: int, positions: seq<Snapshot>,
                           strategy: string)
    requires i < |orders| && orders[i].orderId.Some? && OnlyOrder(orders, i, orders[i].orderId.value)
    requires q > 0 && Got(fills, orders[i].orderId.value) >= 0
    ensures var o := orders[i];
      Exposure(orders, fills + [Fill(o.orderId, Some(q))], positions, strategy)
      == Exposure(orders, fills, positions, strategy)
         + (if o.strategy == strategy && o.buy && o.status == Canceled && !Flat(positions, o.ticker) && o.price.Some?
               && (o.reason == Some("partial_fill") || o.reason == Some("gone_from_exchange"))
            then o.price.value * q else 0)
  {
    hide Flat, Got, Closing, Exposure;
    var o, f := orders[i], Fill(orders[i].orderId, Some(q));
    OneShareMoves(orders, i, fills, f, positions, strategy);
    GotAdds(fills, [f], o.orderId.value);
    if o.price.Some? { DistributeSum(o.price.value, Got(fills, o.orderId.value), q); }
  }

  lemma DistributeSum(p: int, g: int, q: int)
    ensures p * (g + q) == p * g + p * q
  {
  }

  lemma Distribute(p: int, q: int, g: int)
    ensures p * (q - g) == p * q - p * g
  {
  }

  /** Moves among working and filled leave the money committed as it is. */
  lemma WorkingMovesKeepExposure(orders: seq<Order>, i: nat, status: Status, orderId: Option<string>,
                                 reason: Option<string>, fills: seq<Fill>, positions: seq<Snapshot>, strategy: string)
    requires i < |orders| && StillOpen(orders[i].status) && StillOpen(status)
    ensures Exposure(orders[i := Updated(orders[i], status, orderId, reason)], fills, positions, strategy)
            == Exposure(orders, fills, positions, strategy)
  {
    hide Flat, Got, Closing, Exposure;
    ExposureUpdate(orders, i, Updated(orders[i], status, orderId, reason), fills, positions, strategy);
  }

  // --- the store -------------------------------------------------------------------------------

  class Ledger {
    var orders: seq<Order>
    var fills: seq<Fill>
    var positions: seq<Snapshot>

    constructor ()
      ensures orders == [] && fills == [] && positions == []
    {
      orders, fills, positions := [], [], [];
    }

    method CreateLiveOrder(ticker: string, event: Option<string>, strategy: string, buy: bool, price: Option<int>,
                           quantity: int, status: Status, clientId: string) returns (i: nat)
      modifies this`orders
      ensures i == |old(orders)|
      ensures var row := Order(strategy, ticker, event, buy, price, Some(quantity), Some(clientId), None, status, None);
              orders == old(orders) + [row]
    {
      i := |orders|;
      var row := Order(strategy, ticker, event, buy, price, Some(quantity), Some(clientId), None, status, None);
      orders := orders + [row];
    }

    method UpdateLiveOrderStatus(i: nat, status: Status, orderId: Option<string>, reason: Option<string>)
      requires i < |orders|
      modifies this`orders
      ensures orders == old(orders)[i := Updated(old(orders)[i], status, orderId, reason)]
      ensures orders[i].status == status && (orderId.Some? ==> orders[i].orderId == orderId)
      ensures reason.Some? ==> orders[i].reason.Some? && orders[i].reason.value <= reason.value
                               && (|orders[i].reason.value| == |reason.value| <= 300
                                   || |orders[i].reason.value| == 300 < |reason.value|)
    {
      var order := orders[i].(status := status);
      if orderId.Some? { order := order.(orderId := orderId); }
      if reason.Some? {
        order := order.(reason := Some(Cut(reason.value)));
      }
      orders := orders[i := order];
    }

    method InsertFill(orderId: Option<string>, quantity: Option<int>)
      modifies this`fills
      ensures fills == old(fills) + [Fill(orderId, quantity)]
    {
      fills := fills + [Fill(orderId, quantity)];
    }

    method InsertPositionSnapshot(row: Snapshot)
      modifies this`positions
      ensures positions == old(positions) + [row]
    {
      positions := positions + [row];
    }

    /** Cents committed by one strategy: two queries, then one pass over their rows. */
    method LiveStrategyExposure(strategy: string) returns (total: int)
      ensures total == Exposure(orders, fills, positions, strategy)
    {
      hide Flat, Closing;
      var rows := OpenEntries(orders, strategy) + HeldEntries(orders, fills, strategy);
      EntriesAreShares(orders, fills, positions, strategy);
      total := 0;
      for i := 0 to |rows|
        invariant total == EntrySum(rows[..i], positions)
      {
        var row := rows[i];
        assert Init(rows[..i + 1]) == rows[..i] && Last(rows[..i + 1]) == row;
        if Closing(row.clientId) { continue; }
        if Flat(positions, row.ticker) { continue; }
        if row.price.None? || row.quantity.None? { continue; }
        total := total + row.price.value * row.quantity.value;
      }
      assert rows[..|rows|] == rows;
    }

    /**
     * The open tickers of a strategy with their event names: statuses are collected first, snapshots consulted last.
     */
    method OpenLiveTickers(strategy: string) returns (out: map<string, string>)
      ensures forall t :: t in out <==> IsOpen(orders, fills, positions, strategy, t)
      ensures forall t :: t in out ==> out[t] == EventOf(Footings(orders, fills, strategy), t)
    {
      hide Flat, IsOpen, WorkingOn, BoughtOn, Footings;
      var rows := Footings(orders, fills, strategy);
      var statuses, events := Collect(rows);
      out := map[];
      var left := statuses.Keys;
      while left != {}
        invariant left <= statuses.Keys
        invariant forall t :: t in out <==> t in statuses.Keys - left && IsOpen(orders, fills, positions, strategy, t)
        invariant forall t :: t in out ==> out[t] == EventOf(rows, t)
      {
        var ticker :| ticker in left;
        left := left - {ticker};
        OpenByStatuses(ticker, strategy);
        var event := if ticker in events then events[ticker] else "";
        if statuses[ticker] - {Filled} != {} {
          out := out[ticker := event];
          continue;
        }
        if Flat(positions, ticker) { continue; }
        out := out[ticker := event];
      }
      forall t ensures t in out <==> IsOpen(orders, fills, positions, strategy, t) {
        OpenByStatuses(t, strategy);
      }
    }

    lemma OpenByStatuses(t: string, strategy: string)
      ensures var seen := StatusesOf(Footings(orders, fills, strategy), t);
              IsOpen(orders, fills, positions, strategy, t) <==>
                seen - {Filled} != {} || (seen != {} && !Flat(positions, t))
    {
      hide Flat, WorkingOn, BoughtOn, Footings;
      StatusesMean(orders, fills, strategy, t);
      var seen := StatusesOf(Footings(orders, fills, strategy), t);
      assert seen != {} <==> seen - {Filled} != {} || Filled in seen;
    }
  }

  /** First pass of the footprint: the statuses and the first event name of every ticker. */
  method Collect(rows: seq<Footing>) returns (statuses: map<string, set<Status>>, events: map<string, string>)
    ensures forall t :: t in statuses <==> StatusesOf(rows, t) != {}
    ensures forall t :: t in statuses ==> statuses[t] == StatusesOf(rows, t)
    ensures forall t :: (if t in events then events[t] else "") == EventOf(rows, t)
  {
    hide StatusesOf, EventOf;
    CollectNone();
    statuses, events := map[], map[];
    assert rows[..0] == [];
    for i := 0 to |rows|
      invariant forall t :: t in statuses <==> StatusesOf(rows[..i], t) != {}
      invariant forall t :: t in statuses ==> statuses[t] == StatusesOf(rows[..i], t)
      invariant forall t :: t in events ==> events[t] != ""
      invariant forall t :: (if t in events then events[t] else "") == EventOf(rows[..i], t)
    {
      var row := rows[i];
      CollectNext(rows, i);
      statuses := statuses[row.ticker := (if row.ticker in statuses then statuses[row.ticker] else {}) + {row.status}];
      if row.event.Some? && row.event.value != "" && row.ticker !in events {
        events := events[row.ticker := row.event.value];
      }
    }
    assert rows[..|rows|] == rows;
  }

  lemma CollectNone()
    ensures forall t :: StatusesOf([], t) == {} && EventOf([], t) == ""
  {
  }

  lemma CollectNext(rows: seq<Footing>, i: nat)
    requires i < |rows|
    ensures forall t ::
              StatusesOf(rows[..i + 1], t)
              == StatusesOf(rows[..i], t) + (if rows[i].ticker == t then {rows[i].status} else {})
    ensures forall t :: EventOf(rows[..i + 1], t)
                        == if EventOf(rows[..i], t) == "" && rows[i].ticker == t
                           && rows[i].event.Some? then rows[i].event.value
                           else EventOf(rows[..i], t)
  {
    assert rows[..i + 1] == rows[..i] + [rows[i]];
    assert Init(rows[..i + 1]) == rows[..i] && Last(rows[..i + 1]) == rows[i];
  }
}
