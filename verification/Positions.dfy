// Append-only position snapshots and the scans that read the newest one of every ticker.
module Positions {
  import opened Prelude
  import opened Sorting

  datatype Snapshot = Snapshot(ticker: string, at: int, quantity: Option<int>, quantityFp: Option<real>,
                               avgPrice: Option<real>, pnl: Option<real>)

  /** The newest snapshot of a ticker: the earliest row among those with the greatest time. */
  function Newest(rows: seq<Snapshot>, ticker: string): Option<Snapshot> {
    if rows == [] then None
    else
      var best := Newest(Init(rows), ticker);
      if Last(rows).ticker == ticker && (best.None? || best.value.at < Last(rows).at) then Some(Last(rows)) else best
  }

  function Abs(x: real): real {
    if x < 0.0 then -x else x
  }

  /** Settled or flat: the newest snapshot states a size of at most a hundredth of a contract. */
  predicate Flat(rows: seq<Snapshot>, ticker: string) {
    match Newest(rows, ticker)
    case None => false
    case Some(s) =>
      if s.quantityFp.Some? then Abs(s.quantityFp.value) <= 0.01
      else s.quantity.Some? && Abs(s.quantity.value as real) <= 0.01
  }

  // --- the two scans ---------------------------------------------------------------------------

  /** Money at risk since a time, and realized profit since midnight. */
  datatype Scan = AtRisk(since: int) | Realized(since: int)

  predicate Kept(scan: Scan, r: Snapshot) {
    r.at >= scan.since && (scan.Realized? ==> r.pnl.Some?)
  }

  function OrZero(x: Option<real>): real {
    if x.Some? then x.value else 0.0
  }

  function Size(r: Snapshot): real {
    if r.quantityFp.Some? then r.quantityFp.value else if r.quantity.Some? then r.quantity.value as real else 0.0
  }

  function Worth(scan: Scan, r: Snapshot): real {
    match scan
    case AtRisk(_) => if Abs(Size(r)) < 0.01 then 0.0 else Abs(Size(r)) * OrZero(r.avgPrice) / 100.0
    case Realized(_) => OrZero(r.pnl)
  }

  function Window(rows: seq<Snapshot>, scan: Scan): seq<Snapshot> {
    if rows == [] then []
    else Window(Init(rows), scan) + (if Kept(scan, Last(rows)) then [Last(rows)] else [])
  }

  function ByAge(r: Snapshot): real {
    -(r.at as real)
  }

  /** Rows by falling time, rows of one time in the order they were stored. */
  function NewestFirst(rows: seq<Snapshot>): seq<Snapshot> {
    Sort(rows, ByAge)
  }

  function Tickers(rows: seq<Snapshot>): set<string> {
    set r | r in rows :: r.ticker
  }

  /** The first row of every ticker: what a scan that skips tickers it has seen looks at. */
  function Firsts(rows: seq<Snapshot>): map<string, Snapshot> {
    if rows == [] then map[]
    else
      var before := Firsts(Init(rows));
      if Last(rows).ticker in before then before else before[Last(rows).ticker := Last(rows)]
  }

  /** The newest row of every ticker. */
  ghost function Latest(rows: seq<Snapshot>): map<string, Snapshot> {
    map t | t in Tickers(rows) && Newest(rows, t).Some? :: Newest(rows, t).value
  }

  function Worths(scan: Scan, latest: map<string, Snapshot>): map<string, real> {
    map t | t in latest :: Worth(scan, latest[t])
  }

  ghost function SumOver(m: map<string, real>): real {
    if m == map[] then 0.0
    else
      var k :| k in m;
      m[k] + SumOver(m - {k})
  }

  /** The total as the reports define it: over the map from ticker to its newest snapshot in the window. */
  ghost function Total(rows: seq<Snapshot>, scan: Scan): real {
    SumOver(Worths(scan, Latest(Window(rows, scan))))
  }

  // --- a scan that skips what it has seen is a sum over the newest rows ------------------------

  lemma {:induction false} SumRemove(m: map<string, real>, k: string)
    requires k in m
    ensures SumOver(m) == m[k] + SumOver(m - {k})
  {
    var first :| first in m && SumOver(m) == m[first] + SumOver(m - {first});
    if first != k {
      SumRemove(m - {first}, k);
      SumRemove(m - {k}, first);
      assert (m - {first}) - {k} == (m - {k}) - {first};
    }
  }

  lemma SumPut(m: map<string, real>, k: string, v: real)
    ensures SumOver(m[k := v]) == SumOver(m) + v - (if k in m then m[k] else 0.0)
  {
    SumRemove(m[k := v], k);
    assert m[k := v] - {k} == m - {k};
    if k in m { SumRemove(m, k); } else { assert m - {k} == m; }
  }

  function Found(firsts: map<string, Snapshot>, t: string): Option<Snapshot> {
    if t in firsts then Some(firsts[t]) else None
  }

  lemma {:induction false} FirstsHolds(s: seq<Snapshot>, t: string)
    ensures t in Firsts(s) <==> exists r :: r in s && r.ticker == t
    ensures t in Firsts(s) ==> Firsts(s)[t] in s && Firsts(s)[t].ticker == t
  {
    if s != [] {
      FirstsHolds(Init(s), t);
      assert s == Init(s) + [Last(s)];
    }
  }

  lemma FoundAppend(s: seq<Snapshot>, x: Snapshot, t: string)
    ensures Found(Firsts(s + [x]), t)
            == var was := Found(Firsts(s), t); if was.None? && x.ticker == t then Some(x) else was
  {
    assert Init(s + [x]) == s;
  }

  /** Sorting a new row in changes the first row of its ticker exactly when it is strictly newer. */
  lemma {:induction false} InsertFirsts(s: seq<Snapshot>, x: Snapshot, t: string)
    requires Ordered(s, ByAge)
    ensures Found(Firsts(Insert(s, x, ByAge)), t)
            == var was := Found(Firsts(s), t);
               if x.ticker == t && (was.None? || was.value.at < x.at) then Some(x) else was
  {
    hide Firsts;
    if s == [] || Last(s).at >= x.at {
      FirstsHolds(s, t);
      FoundAppend(s, x, t);
    } else {
      InsertFirsts(Init(s), x, t);
      assert s == Init(s) + [Last(s)];
      FoundAppend(Init(s), Last(s), t);
      FoundAppend(Insert(Init(s), x, ByAge), Last(s), t);
    }
  }

  lemma {:induction false} FirstIsNewest(rows: seq<Snapshot>, t: string)
    ensures Found(Firsts(NewestFirst(rows)), t) == Newest(rows, t)
  {
    if rows != [] {
      FirstIsNewest(Init(rows), t);
      SortSorts(Init(rows), ByAge);
      InsertFirsts(NewestFirst(Init(rows)), Last(rows), t);
    }
  }

  lemma {:induction false} NewestFound(rows: seq<Snapshot>, t: string)
    ensures Newest(rows, t).Some? <==> t in Tickers(rows)
    ensures Newest(rows, t).Some? ==> Newest(rows, t).value in rows && Newest(rows, t).value.ticker == t
    ensures Newest(rows, t).Some? ==> forall r :: r in rows && r.ticker == t ==> r.at <= Newest(rows, t).value.at
  {
    if rows != [] {
      NewestFound(Init(rows), t);
      assert rows == Init(rows) + [Last(rows)];
    }
  }

  /** Read newest first, the first row of every ticker is its newest one. */
  lemma FirstsAreLatest(rows: seq<Snapshot>)
    ensures Firsts(NewestFirst(rows)) == Latest(rows)
  {
    forall t
      ensures Found(Firsts(NewestFirst(rows)), t) == Newest(rows, t) && (Newest(rows, t).Some? <==> t in Tickers(rows))
    {
      FirstIsNewest(rows, t);
      NewestFound(rows, t);
    }
    assert forall t :: t in Firsts(NewestFirst(rows)) <==> Found(Firsts(NewestFirst(rows)), t).Some?;
  }

  lemma FirstsNext(rows: seq<Snapshot>, i: nat)
    requires i < |rows|
    ensures Firsts(rows[..i + 1]) == (var before := Firsts(rows[..i]);
                                      if rows[i].ticker in before then before else before[rows[i].ticker := rows[i]])
  {
    assert Init(rows[..i + 1]) == rows[..i] && Last(rows[..i + 1]) == rows[i];
  }

  lemma ScanEnds(positions: seq<Snapshot>, scan: Scan, rows: seq<Snapshot>)
    requires rows == NewestFirst(Window(positions, scan))
    ensures SumOver(Worths(scan, Firsts(rows[..|rows|]))) == Total(positions, scan)
    ensures Worths(scan, Firsts(rows[..0])) == map[]
  {
    assert rows[..|rows|] == rows;
    FirstsAreLatest(Window(positions, scan));
  }

  /** The exposure scan: a set of tickers seen so far and a running total. */
  method TotalExposure(positions: seq<Snapshot>, since: int) returns (total: real)
    ensures total == Total(positions, AtRisk(since))
  {
    hide Window, NewestFirst, Firsts, Worths, Total, Latest;
    ghost var scan := AtRisk(since);
    var rows := NewestFirst(Window(positions, AtRisk(since)));
    ScanEnds(positions, scan, rows);
    var seen: set<string> := {};
    total := 0.0;
    assert Firsts(rows[..0]).Keys == {} by { assert rows[..0] == []; NoFirsts(); }
    for i := 0 to |rows|
      invariant seen == Firsts(rows[..i]).Keys
      invariant total == SumOver(Worths(scan, Firsts(rows[..i])))
    {
      var row := rows[i];
      FirstsNext(rows, i);
      if row.ticker in seen { continue; }
      seen := seen + {row.ticker};
      Seen(scan, Firsts(rows[..i]), row);
      var qty := Size(row);
      if Abs(qty) < 0.01 { continue; }
      total := total + Abs(qty) * OrZero(row.avgPrice) / 100.0;
    }
  }

  lemma NoFirsts()
    ensures Firsts([]) == map[]
  {
  }

  lemma WorthsPut(scan: Scan, latest: map<string, Snapshot>, t: string, r: Snapshot)
    ensures Worths(scan, latest).Keys == latest.Keys
    ensures Worths(scan, latest[t := r]) == Worths(scan, latest)[t := Worth(scan, r)]
  {
  }

  lemma Seen(scan: Scan, firsts: map<string, Snapshot>, row: Snapshot)
    ensures SumOver(Worths(scan, firsts[row.ticker := row]))
            == SumOver(Worths(scan, firsts)) + Worth(scan, row)
               - (if row.ticker in firsts then Worth(scan, firsts[row.ticker]) else 0.0)
  {
    SumPut(Worths(scan, firsts), row.ticker, Worth(scan, row));
    assert Worths(scan, firsts[row.ticker := row]) == Worths(scan, firsts)[row.ticker := Worth(scan, row)];
  }

  /** The profit scan: a dictionary that keeps the first value it meets, then the sum of its values. */
  method RealizedPnlToday(positions: seq<Snapshot>, midnight: int) returns (total: real)
    ensures total == Total(positions, Realized(midnight))
  {
    hide Window, NewestFirst, Firsts, Worths, Total, Latest, SumOver;
    ghost var scan := Realized(midnight);
    var rows := NewestFirst(Window(positions, Realized(midnight)));
    ScanEnds(positions, scan, rows);
    var latest: map<string, real> := map[];
    for i := 0 to |rows|
      invariant latest == Worths(scan, Firsts(rows[..i]))
    {
      FirstsNext(rows, i);
      WorthsPut(scan, Firsts(rows[..i]), rows[i].ticker, rows[i]);
      if rows[i].ticker !in latest {
        latest := latest[rows[i].ticker := OrZero(rows[i].pnl)];
      }
    }
    total := SumValues(latest);
  }

  method SumValues(m: map<string, real>) returns (total: real)
    ensures total == SumOver(m)
  {
    total := 0.0;
    var left := m;
    while left != map[]
      invariant total + SumOver(left) == SumOver(m)
      decreases |left|
    {
      var k :| k in left;
      SumRemove(left, k);
      total := total + left[k];
      left := left - {k};
    }
  }

  /** A snapshot alone in the table: its size is the fractional one when it states one, dust counts nothing. */
  lemma OneSnapshot(r: Snapshot, since: int)
    ensures var qty := match (r.quantityFp, r.quantity)
                       case (Some(fp), _) => fp
                       case (None, Some(n)) => n as real
                       case (None, None) => 0.0;
            Total([r], AtRisk(since))
            == (if r.at < since || r.avgPrice.None? || -0.01 < qty < 0.01 then 0.0
                else if qty > 0.0 then qty * r.avgPrice.value / 100.0 else -qty * r.avgPrice.value / 100.0)
    ensures Total([r], Realized(since)) == if r.at >= since && r.pnl.Some? then r.pnl.value else 0.0
  {
    hide Total;
    OneRow(r, AtRisk(since));
    OneRow(r, Realized(since));
  }

  /** A snapshot without a profit, or from before the time, changes no total of profits. */
  lemma WithoutProfit(rows: seq<Snapshot>, r: Snapshot, since: int)
    requires r.pnl.None? || r.at < since
    ensures Total(rows + [r], Realized(since)) == Total(rows, Realized(since))
  {
    assert Init(rows + [r]) == rows;
    assert Window(rows + [r], Realized(since)) == Window(rows, Realized(since));
  }

  lemma OneRow(r: Snapshot, scan: Scan)
    ensures Total([r], scan) == if Kept(scan, r) then Worth(scan, r) else 0.0
  {
    hide Total, Contribution, Worth, Kept;
    NothingStored(scan, r.ticker);
    AppendChangesOneTicker([], scan, r);
    assert [] + [r] == [r];
  }

  lemma NothingStored(scan: Scan, ticker: string)
    ensures Total([], scan) == 0.0 && Contribution([], scan, ticker) == 0.0
  {
    assert Latest([]) == map[];
    assert Worths(scan, map[]) == map[];
  }

  // --- one more snapshot -----------------------------------------------------------------------

  /** What a ticker adds to a total. */
  ghost function Contribution(rows: seq<Snapshot>, scan: Scan, ticker: string): real {
    match Newest(Window(rows, scan), ticker)
    case None => 0.0
    case Some(r) => Worth(scan, r)
  }

  lemma {:induction false} WindowHolds(rows: seq<Snapshot>, scan: Scan, r: Snapshot)
    ensures r in Window(rows, scan) <==> r in rows && Kept(scan, r)
  {
    if rows != [] {
      WindowHolds(Init(rows), scan, r);
      assert rows == Init(rows) + [Last(rows)];
    }
  }

  lemma AppendLatest(rows: seq<Snapshot>, r: Snapshot)
    requires forall x :: x in rows && x.ticker == r.ticker ==> x.at < r.at
    ensures Latest(rows + [r]) == Latest(rows)[r.ticker := r]
  {
    assert Init(rows + [r]) == rows;
    NewestFound(rows, r.ticker);
    forall t ensures Newest(rows + [r], t) == if t == r.ticker then Some(r) else Newest(rows, t) {
    }
    assert Tickers(rows + [r]) == Tickers(rows) + {r.ticker};
  }

  /**
   * A newer snapshot alone decides whether its ticker is flat: by its fractional size when it states one, else by its
   * whole size, and not when it states none. A ticker without a snapshot is not flat.
   */
  lemma NewestDecidesFlat(rows: seq<Snapshot>, r: Snapshot, t: string)
    requires forall x :: x in rows && x.ticker == r.ticker ==> x.at < r.at
    ensures Flat(rows + [r], r.ticker)
            <==> match (r.quantityFp, r.quantity)
                 case (Some(fp), _) => -0.01 <= fp <= 0.01
                 case (None, Some(n)) => n == 0
                 case (None, None) => false
    ensures t != r.ticker ==> Flat(rows + [r], t) == Flat(rows, t)
    ensures !Flat([], t)
  {
    assert Init(rows + [r]) == rows;
    NewestFound(rows, r.ticker);
    assert Newest(rows + [r], r.ticker) == Some(r);
  }

  /**
   * Storing a newer snapshot changes a total by its own worth minus what its ticker added before, and by nothing else.
   */
  lemma AppendChangesOneTicker(rows: seq<Snapshot>, scan: Scan, r: Snapshot)
    requires forall x :: x in rows && x.ticker == r.ticker ==> x.at < r.at
    ensures Total(rows + [r], scan)
            == Total(rows, scan)
               + (if Kept(scan, r) then Worth(scan, r) - Contribution(rows, scan, r.ticker) else 0.0)
    ensures forall t :: t != r.ticker ==> Contribution(rows + [r], scan, t) == Contribution(rows, scan, t)
  {
    assert Init(rows + [r]) == rows;
    var w := Window(rows, scan);
    if Kept(scan, r) {
      assert Window(rows + [r], scan) == w + [r] && Init(w + [r]) == w;
      forall x | x in w && x.ticker == r.ticker ensures x.at < r.at { WindowHolds(rows, scan, x); }
      AppendLatest(w, r);
      NewestFound(w, r.ticker);
      Seen(scan, Latest(w), r);
    } else {
      assert Window(rows + [r], scan) == w;
    }
  }
}
