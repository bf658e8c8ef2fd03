// Entry retries: the gate on attempts and committed buys, over every run of placements and status changes.
module Attempts {
  import opened Prelude
  import opened LiveOrders

  predicate AttemptOn(o: Order, ticker: string, strategy: string) {
    o.ticker == ticker && Buys(o, strategy)
  }

  /** Limit prices of all buys of one book on one ticker, oldest first, whatever became of them. */
  function Prices(orders: seq<Order>, ticker: string, strategy: string): seq<Option<int>> {
    if orders == [] then []
    else
      Prices(Init(orders), ticker, strategy) +
      (if AttemptOn(Last(orders), ticker, strategy) then [Last(orders).price] else [])
  }

  /** Number of attempts, and the first one's limit price. */
  function AttemptStats(orders: seq<Order>, ticker: string, strategy: string): (int, Option<int>) {
    var rows := Prices(orders, ticker, strategy);
    if rows == [] then (0, None) else (|rows|, rows[0])
  }

  predicate BlocksEntry(o: Order, ticker: string, strategy: string) {
    AttemptOn(o, ticker, strategy) && Committed(o.status)
  }

  predicate BuyExists(orders: seq<Order>, ticker: string, strategy: string) {
    exists o :: o in orders && BlocksEntry(o, ticker, strategy)
  }

  // --- runs ------------------------------------------------------------------------------------

  datatype Event = Place(order: Order) | Update(i: nat, status: Status, orderId: Option<string>, reason: Option<string>)

  /** A first entry needs no committed buy; a retry also needs an attempt left under the cap. */
  predicate Gate(orders: seq<Order>, o: Order, cap: nat) {
    o.buy ==>
      && !BuyExists(orders, o.ticker, o.strategy)
      && (AttemptStats(orders, o.ticker, o.strategy).0 == 0 || AttemptStats(orders, o.ticker, o.strategy).0 < cap)
  }

  predicate Allowed(orders: seq<Order>, e: Event, cap: nat) {
    match e
    case Place(o) => Gate(orders, o, cap)
    case Update(i, _, _, _) => i < |orders|
  }

  function Apply(orders: seq<Order>, e: Event, cap: nat): seq<Order>
    requires Allowed(orders, e, cap)
  {
    match e
    case Place(o) => orders + [o]
    case Update(i, status, orderId, reason) => orders[i := Updated(orders[i], status, orderId, reason)]
  }

  predicate Run(orders: seq<Order>, events: seq<Event>, cap: nat)
    decreases |events|
  {
    events != [] ==> Allowed(orders, events[0], cap) && Run(Apply(orders, events[0], cap), events[1..], cap)
  }

  function After(orders: seq<Order>, events: seq<Event>, cap: nat): seq<Order>
    requires Run(orders, events, cap)
    decreases |events|
  {
    if events == [] then orders else After(Apply(orders, events[0], cap), events[1..], cap)
  }

  // --- the attempt history only grows ----------------------------------------------------------

  lemma {:induction false} UpdateKeepsPrices(orders: seq<Order>, i: nat, o': Order, ticker: string, strategy: string)
    requires i < |orders| && o'.ticker == orders[i].ticker && o'.strategy == orders[i].strategy
    requires o'.buy == orders[i].buy && o'.price == orders[i].price
    ensures Prices(orders[i := o'], ticker, strategy) == Prices(orders, ticker, strategy)
  {
    if i == |orders| - 1 {
      assert Init(orders[i := o']) == Init(orders);
    } else {
      UpdateKeepsPrices(Init(orders), i, o', ticker, strategy);
      assert Init(orders[i := o']) == Init(orders)[i := o'];
    }
  }

  lemma ApplyExtends(orders: seq<Order>, e: Event, cap: nat, ticker: string, strategy: string)
    requires Allowed(orders, e, cap)
    ensures Prices(Apply(orders, e, cap), ticker, strategy)
            == Prices(orders, ticker, strategy)
               + (if e.Place? && AttemptOn(e.order, ticker, strategy) then [e.order.price] else [])
  {
    if e.Update? {
      UpdateKeepsPrices(orders, e.i, Updated(orders[e.i], e.status, e.orderId, e.reason), ticker, strategy);
    } else {
      assert Init(orders + [e.order]) == orders;
    }
  }

  /** No cancel, reject or status change takes an attempt back or moves the drift anchor. */
  lemma {:induction false} HistoryOnlyGrows(orders: seq<Order>, events: seq<Event>, cap: nat, ticker: string,
                                            strategy: string)
    requires Run(orders, events, cap)
    ensures Prices(orders, ticker, strategy) <= Prices(After(orders, events, cap), ticker, strategy)
    ensures AttemptStats(orders, ticker, strategy).0 > 0
            ==> AttemptStats(After(orders, events, cap), ticker, strategy).1 == AttemptStats(orders, ticker, strategy).1
    decreases |events|
  {
    if events != [] {
      ApplyExtends(orders, events[0], cap, ticker, strategy);
      HistoryOnlyGrows(Apply(orders, events[0], cap), events[1..], cap, ticker, strategy);
    }
  }

  /** Attempts are the buys of the book on the ticker in the order they were placed, and the first price is theirs. */
  lemma AttemptsAre(orders: seq<Order>, o: Order, ticker: string, strategy: string)
    ensures var was, now := AttemptStats(orders, ticker, strategy), AttemptStats(orders + [o], ticker, strategy);
            now == if o.ticker == ticker && o.strategy == strategy && o.buy
                   then (was.0 + 1, if was.0 == 0 then o.price else was.1) else was
    ensures AttemptStats([], ticker, strategy) == (0, None) && AttemptStats(orders, ticker, strategy).0 >= 0
  {
    assert Init(orders + [o]) == orders;
  }

  /**
   * A buy may be placed exactly when no buy of its book on its ticker is under way, held or rejected, and one is left.
   */
  lemma EntryAllowed(orders: seq<Order>, o: Order, cap: nat)
    requires o.buy
    ensures Allowed(orders, Place(o), cap)
            <==> (forall p :: p in orders && p.ticker == o.ticker && p.strategy == o.strategy && p.buy
                    ==> p.status == Canceled || p.status == NotLanded)
                 && AttemptStats(orders, o.ticker, o.strategy).0 < (if cap <= 1 then 1 else cap)
  {
    AttemptsAre(orders, o, o.ticker, o.strategy);
  }

  /** The cap holds over every run; a cap of 0 or 1 allows the first attempt only. */
  lemma {:induction false} CapHolds(orders: seq<Order>, events: seq<Event>, cap: nat, ticker: string, strategy: string)
    requires Run(orders, events, cap) && AttemptStats(orders, ticker, strategy).0 <= (if cap <= 1 then 1 else cap)
    ensures AttemptStats(After(orders, events, cap), ticker, strategy).0 <= (if cap <= 1 then 1 else cap)
    decreases |events|
  {
    if events != [] {
      ApplyExtends(orders, events[0], cap, ticker, strategy);
      CapHolds(Apply(orders, events[0], cap), events[1..], cap, ticker, strategy);
    }
  }

  // --- one committed buy at a time -------------------------------------------------------------

  /** Both orders are committed buys of one book on one ticker. */
  predicate Clash(a: Order, b: Order) {
    a.buy && b.buy && a.ticker == b.ticker && a.strategy == b.strategy && Committed(a.status) && Committed(b.status)
  }

  ghost predicate OneCommitted(orders: seq<Order>) {
    forall i, j :: 0 <= i < j < |orders| ==> !Clash(orders[i], orders[j])
  }

  /** The update brings a buy back that no longer blocked an entry, while another one is committed. */
  predicate Revives(orders: seq<Order>, e: Event) {
    e.Update? && e.i < |orders| && !Committed(orders[e.i].status) && Committed(e.status)
    && orders[e.i].buy && BuyExists(orders, orders[e.i].ticker, orders[e.i].strategy)
  }

  ghost predicate NeverRevives(orders: seq<Order>, events: seq<Event>, cap: nat)
    requires Run(orders, events, cap)
    decreases |events|
  {
    events != [] ==> !Revives(orders, events[0]) && NeverRevives(Apply(orders, events[0], cap), events[1..], cap)
  }

  /** Every state the run passes through has at most one committed buy per book and ticker. */
  ghost predicate AlwaysOne(orders: seq<Order>, events: seq<Event>, cap: nat)
    requires Run(orders, events, cap)
    decreases |events|
  {
    OneCommitted(orders) && (events != [] ==> AlwaysOne(Apply(orders, events[0], cap), events[1..], cap))
  }

  lemma PlaceKeepsOne(orders: seq<Order>, o: Order, cap: nat)
    requires Gate(orders, o, cap) && OneCommitted(orders)
    ensures OneCommitted(orders + [o])
  {
    hide Committed;
    forall i | 0 <= i < |orders| ensures !Clash(orders[i], o) {
      if o.buy { assert orders[i] in orders && !BlocksEntry(orders[i], o.ticker, o.strategy); }
    }
  }

  lemma UpdateKeepsOne(orders: seq<Order>, e: Event)
    requires e.Update? && e.i < |orders| && OneCommitted(orders)
    ensures OneCommitted(orders[e.i := Updated(orders[e.i], e.status, e.orderId, e.reason)]) <==> !Revives(orders, e)
  {
    hide Committed;
    var o, o' := orders[e.i], Updated(orders[e.i], e.status, e.orderId, e.reason);
    var orders' := orders[e.i := o'];
    if Revives(orders, e) {
      var other :| other in orders && BlocksEntry(other, o.ticker, o.strategy);
      var j :| 0 <= j < |orders| && orders[j] == other;
      assert orders'[j] == other && orders'[e.i] == o';
      if j < e.i { assert Clash(orders'[j], orders'[e.i]); } else { assert Clash(orders'[e.i], orders'[j]); }
    } else {
      forall i, j | 0 <= i < j < |orders| ensures !Clash(orders'[i], orders'[j]) {
        assert !Clash(orders[i], orders[j]);
        assert orders[i] in orders && orders[j] in orders;
        assert BlocksEntry(orders[i], o.ticker, o.strategy) ==> BuyExists(orders, o.ticker, o.strategy);
        assert BlocksEntry(orders[j], o.ticker, o.strategy) ==> BuyExists(orders, o.ticker, o.strategy);
      }
    }
  }

  /**
   * A gated run never has two committed buys of a book on a ticker exactly when no status change brings an order back
   * while `live_buy_exists_for_ticker` holds for it.
   */
  lemma {:induction false} OneCommittedBuy(orders: seq<Order>, events: seq<Event>, cap: nat)
    requires Run(orders, events, cap) && OneCommitted(orders)
    ensures AlwaysOne(orders, events, cap) <==> NeverRevives(orders, events, cap)
    decreases |events|
  {
    hide OneCommitted, Revives, Gate;
    if events != [] {
      var e := events[0];
      var orders' := Apply(orders, e, cap);
      if e.Place? {
        PlaceKeepsOne(orders, e.order, cap);
        assert !Revives(orders, e) by { PlacesDoNotRevive(orders, e); }
      } else {
        UpdateKeepsOne(orders, e);
      }
      if OneCommitted(orders') {
        OneCommittedBuy(orders', events[1..], cap);
      }
    }
  }

  lemma PlacesDoNotRevive(orders: seq<Order>, e: Event)
    requires e.Place?
    ensures !Revives(orders, e)
  {
  }

  function Bid(clientId: string): Order {
    Order("mmsell", "T", None, true, Some(90), Some(1), Some(clientId), None, Pending, None)
  }

  /** Without that condition it can: a cancelled attempt is retried and then turns out to have filled. */
  lemma RevivalBreaksIt() returns (events: seq<Event>)
    ensures Run([], events, 6) && !OneCommitted(After([], events, 6))
  {
    var cancel, fill := Update(0, Canceled, None, None), Update(0, Filled, None, None);
    var gone := Updated(Bid("a"), Canceled, None, None);
    var back := Updated(gone, Filled, None, None);
    assert Init([gone]) == [] && Prices([gone], "T", "mmsell") == [Some(90)];
    var s1, s2, s3, s4 := [Bid("a")], [gone], [gone, Bid("b")], [back, Bid("b")];
    assert s1 == [] + [Bid("a")] && s2 == s1[0 := gone] && s3 == s2 + [Bid("b")] && s4 == s3[0 := back];
    hide Run, After;
    events := Nothing(s4, 6);
    events := Before(s3, fill, events, 6);
    events := Before(s2, Place(Bid("b")), events, 6);
    events := Before(s1, cancel, events, 6);
    events := Before([], Place(Bid("a")), events, 6);
    assert Clash(s4[0], s4[1]);
  }

  lemma Nothing(orders: seq<Order>, cap: nat) returns (events: seq<Event>)
    ensures Run(orders, events, cap) && After(orders, events, cap) == orders
  {
    events := [];
  }

  lemma Before(orders: seq<Order>, e: Event, rest: seq<Event>, cap: nat) returns (events: seq<Event>)
    requires Allowed(orders, e, cap) && Run(Apply(orders, e, cap), rest, cap)
    ensures Run(orders, events, cap) && After(orders, events, cap) == After(Apply(orders, e, cap), rest, cap)
  {
    events := [e] + rest;
    assert events[1..] == rest;
  }
}
