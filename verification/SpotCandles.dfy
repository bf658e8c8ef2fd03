// One-minute spot closes: inserting a batch of closes and loading them back.
module SpotCandles {
  import opened Prelude

  datatype Candle = Candle(product: string, minute: int, close: real)

  /** One item of the dictionary from unix seconds to closes. */
  datatype Tick = Tick(at: int, close: real)

  datatype Outcome = Inserted(count: nat) | UniqueViolation

  function MinuteOf(at: int): int {
    at / 60 * 60
  }

  predicate Unique(rows: seq<Candle>) {
    forall i, j :: 0 <= i < j < |rows| ==> !(rows[i].product == rows[j].product && rows[i].minute == rows[j].minute)
  }

  ghost predicate WholeMinutes(rows: seq<Candle>) {
    forall r :: r in rows ==> r.minute % 60 == 0
  }

  ghost predicate DistinctKeys(ticks: seq<Tick>) {
    forall i, j :: 0 <= i < j < |ticks| ==> ticks[i].at != ticks[j].at
  }

  function Earliest(ticks: seq<Tick>): int
    requires ticks != []
  {
    if |ticks| == 1 then ticks[0].at
    else if Earliest(Init(ticks)) <= Last(ticks).at then Earliest(Init(ticks)) else Last(ticks).at
  }

  /** Minutes the store already has, as far back as the query looks: the least key, not rounded down. */
  function Existing(rows: seq<Candle>, product: string, from: int): set<int> {
    set r | r in rows && r.product == product && r.minute >= from :: r.minute
  }

  function Added(existing: set<int>, product: string, ticks: seq<Tick>): seq<Candle> {
    if ticks == [] then []
    else
      Added(existing, product, Init(ticks)) +
      (if MinuteOf(Last(ticks).at) in existing then []
       else [Candle(product, MinuteOf(Last(ticks).at), Last(ticks).close)])
  }

  function Fresh(rows: seq<Candle>, product: string, ticks: seq<Tick>): seq<Candle> {
    if ticks == [] then [] else Added(Existing(rows, product, Earliest(ticks)), product, ticks)
  }

  class CandleTable {
    var rows: seq<Candle>

    constructor ()
      ensures rows == []
    {
      rows := [];
    }

    method Insert(product: string, closes: seq<Tick>) returns (r: Outcome)
      requires Unique(rows)
      modifies this
      ensures Unique(rows)
      ensures Unique(old(rows) + Fresh(old(rows), product, closes)) ==>
                rows == old(rows) + Fresh(old(rows), product, closes)
                && r == Inserted(|Fresh(old(rows), product, closes)|)
      ensures !Unique(old(rows) + Fresh(old(rows), product, closes)) ==> rows == old(rows) && r == UniqueViolation
    {
      if closes == [] {
        assert rows + [] == rows;
        return Inserted(0);
      }
      var existing := Existing(rows, product, Earliest(closes));
      var session: seq<Candle> := [];
      var n := 0;
      for i := 0 to |closes|
        invariant session == Added(existing, product, closes[..i]) && n == |session|
      {
        assert Init(closes[..i + 1]) == closes[..i] && Last(closes[..i + 1]) == closes[i];
        var dt := MinuteOf(closes[i].at);
        if dt in existing { continue; }
        session := session + [Candle(product, dt, closes[i].close)];
        n := n + 1;
      }
      assert closes[..|closes|] == closes;
      if !Unique(rows + session) { return UniqueViolation; }
      rows := rows + session;
      return Inserted(n);
    }

    method Load(product: string, since: int) returns (out: map<int, real>)
      ensures out == Loaded(rows, product, since)
    {
      out := map[];
      for i := 0 to |rows|
        invariant out == Loaded(rows[..i], product, since)
      {
        assert Init(rows[..i + 1]) == rows[..i] && Last(rows[..i + 1]) == rows[i];
        if rows[i].product == product && rows[i].minute >= since {
          out := out[MinuteOf(rows[i].minute) := rows[i].close];
        }
      }
      assert rows[..|rows|] == rows;
    }
  }

  function Loaded(rows: seq<Candle>, product: string, since: int): map<int, real> {
    if rows == [] then map[]
    else
      var before := Loaded(Init(rows), product, since);
      var r := Last(rows);
      if r.product == product && r.minute >= since then before[MinuteOf(r.minute) := r.close] else before
  }

  // --- when the insert goes through ------------------------------------------------------------

  /** No two keys fall into one minute that the query did not find. */
  ghost predicate MinutesApart(existing: set<int>, ticks: seq<Tick>) {
    forall i, j :: 0 <= i < j < |ticks| && MinuteOf(ticks[i].at) == MinuteOf(ticks[j].at) ==>
      MinuteOf(ticks[i].at) in existing
  }

  /** A key whose minute begins before the least key has no stored candle there. */
  ghost predicate NoneBefore(rows: seq<Candle>, product: string, ticks: seq<Tick>, from: int) {
    forall t :: t in ticks && MinuteOf(t.at) < from ==>
      forall r :: r in rows && r.product == product ==> r.minute != MinuteOf(t.at)
  }

  lemma {:induction false} AddedHolds(existing: set<int>, product: string, ticks: seq<Tick>, c: Candle)
    ensures c in Added(existing, product, ticks)
            <==> c.product == product && c.minute !in existing
                 && exists t :: t in ticks && MinuteOf(t.at) == c.minute && t.close == c.close
  {
    if ticks != [] {
      AddedHolds(existing, product, Init(ticks), c);
      assert ticks == Init(ticks) + [Last(ticks)];
      assert forall t :: t in ticks <==> t in Init(ticks) || t == Last(ticks);
    }
  }

  ghost predicate HasMinute(s: seq<Candle>, product: string, minute: int) {
    exists c :: c in s && c.product == product && c.minute == minute
  }

  lemma UniqueAppend(s: seq<Candle>, c: Candle)
    requires Unique(s)
    ensures Unique(s + [c]) <==> !HasMinute(s, c.product, c.minute)
  {
    if HasMinute(s, c.product, c.minute) {
      var x :| x in s && x.product == c.product && x.minute == c.minute;
      var i :| 0 <= i < |s| && s[i] == x;
      assert (s + [c])[i] == x && (s + [c])[|s|] == c;
    }
  }

  lemma NotUniqueLonger(s: seq<Candle>, u: seq<Candle>)
    requires !Unique(s)
    ensures !Unique(s + u)
  {
    var i, j :| 0 <= i < j < |s| && s[i].product == s[j].product && s[i].minute == s[j].minute;
    assert (s + u)[i] == s[i] && (s + u)[j] == s[j];
  }

  /**
   * The unique constraint holds after the insert exactly when the keys are apart and none reaches back before the
   * query.
   */
  lemma {:induction false} InsertGoesThrough(rows: seq<Candle>, product: string, ticks: seq<Tick>, from: int)
    requires Unique(rows) && forall t :: t in ticks ==> from <= t.at
    ensures var existing := Existing(rows, product, from);
            Unique(rows + Added(existing, product, ticks)) <==>
              MinutesApart(existing, ticks) && NoneBefore(rows, product, ticks, from)
  {
    var existing := Existing(rows, product, from);
    if ticks == [] {
      assert rows + Added(existing, product, ticks) == rows;
    } else {
      var rest, t := Init(ticks), Last(ticks);
      var m := MinuteOf(t.at);
      assert ticks == rest + [t];
      InsertGoesThrough(rows, product, rest, from);
      var s := rows + Added(existing, product, rest);
      ApartNext(existing, rest, t);
      NoneBeforeNext(rows, product, rest, t, from);
      if m !in existing {
        assert rows + Added(existing, product, ticks) == s + [Candle(product, m, t.close)];
        if Unique(s) {
          UniqueAppend(s, Candle(product, m, t.close));
          MinuteTaken(rows, existing, product, rest, m, from);
        } else {
          NotUniqueLonger(s, [Candle(product, m, t.close)]);
        }
      } else {
        assert rows + Added(existing, product, ticks) == s;
      }
    }
  }

  lemma ApartNext(existing: set<int>, rest: seq<Tick>, t: Tick)
    ensures MinutesApart(existing, rest + [t])
            <==> MinutesApart(existing, rest)
                 && (MinuteOf(t.at) in existing || forall u :: u in rest ==> MinuteOf(u.at) != MinuteOf(t.at))
  {
    var ticks := rest + [t];
    assert forall i :: 0 <= i < |rest| ==> ticks[i] == rest[i] && rest[i] in rest;
    if MinutesApart(existing, ticks) && MinuteOf(t.at) !in existing {
      forall u | u in rest ensures MinuteOf(u.at) != MinuteOf(t.at) {
        var i :| 0 <= i < |rest| && rest[i] == u;
        assert ticks[i] == u && ticks[|rest|] == t;
      }
    }
    if MinutesApart(existing, ticks) {
      forall i, j | 0 <= i < j < |rest| && MinuteOf(rest[i].at) == MinuteOf(rest[j].at)
        ensures MinuteOf(rest[i].at) in existing
      {
        assert ticks[i] == rest[i] && ticks[j] == rest[j];
      }
    }
  }

  lemma NoneBeforeNext(rows: seq<Candle>, product: string, rest: seq<Tick>, t: Tick, from: int)
    ensures NoneBefore(rows, product, rest + [t], from)
            <==> NoneBefore(rows, product, rest, from)
                 && (MinuteOf(t.at) < from
                     ==> forall r :: r in rows && r.product == product ==> r.minute != MinuteOf(t.at))
  {
    assert forall u :: u in rest + [t] <==> u in rest || u == t;
  }

  /** A minute the query did not find is taken in the extended table by an earlier key, or by a row before the query. */
  lemma MinuteTaken(rows: seq<Candle>, existing: set<int>, product: string, rest: seq<Tick>, m: int, from: int)
    requires existing == Existing(rows, product, from) && m !in existing
    ensures HasMinute(rows + Added(existing, product, rest), product, m)
            <==> (exists u :: u in rest && MinuteOf(u.at) == m) || (m < from && HasMinute(rows, product, m))
  {
    var added := Added(existing, product, rest);
    assert forall c :: c in rows + added <==> c in rows || c in added;
    if u: Tick :| u in rest && MinuteOf(u.at) == m {
      AddedHolds(existing, product, rest, Candle(product, m, u.close));
      assert Candle(product, m, u.close) in rows + added;
    }
    forall c | c in added && c.product == product && c.minute == m
      ensures exists u :: u in rest && MinuteOf(u.at) == m
    {
      AddedHolds(existing, product, rest, c);
    }
  }

  /** The batch is stored exactly when its keys are apart and none reaches back before the query to a stored minute. */
  lemma WhenABatchIsStored(rows: seq<Candle>, product: string, ticks: seq<Tick>)
    requires Unique(rows) && ticks != []
    ensures Unique(rows + Fresh(rows, product, ticks))
            <==> MinutesApart(Existing(rows, product, Earliest(ticks)), ticks)
                 && NoneBefore(rows, product, ticks, Earliest(ticks))
  {
    EarliestIs(ticks);
    InsertGoesThrough(rows, product, ticks, Earliest(ticks));
  }

  /** A repeated minute is skipped when its key is the minute itself, and refused when it is a second later. */
  lemma UnalignedKeyIsRefused(close: real)
    ensures var rows := [Candle("BTC-USD", 60, close)];
            Fresh(rows, "BTC-USD", [Tick(60, close)]) == [] && !Unique(rows + Fresh(rows, "BTC-USD", [Tick(61, close)]))
  {
    var rows := [Candle("BTC-USD", 60, close)];
    var a, b := [Tick(60, close)], [Tick(61, close)];
    assert rows[0] in rows && Init(a) == [] && Init(b) == [];
    assert Existing(rows, "BTC-USD", 60) == {60} && Existing(rows, "BTC-USD", 61) == {};
    assert Added({60}, "BTC-USD", a) == [] && Added({}, "BTC-USD", b) == rows;
    assert (rows + rows)[0] == (rows + rows)[1];
  }

  // --- insert then load is a union of maps -----------------------------------------------------

  ghost predicate MinuteKeys(ticks: seq<Tick>) {
    forall t :: t in ticks ==> t.at % 60 == 0
  }

  /** The batch as a map, from a time on. */
  function Closes(ticks: seq<Tick>, since: int): map<int, real> {
    if ticks == [] then map[]
    else
      var before := Closes(Init(ticks), since);
      if Last(ticks).at >= since then before[Last(ticks).at := Last(ticks).close] else before
  }

  ghost predicate RowAt(rows: seq<Candle>, product: string, minute: int, close: real) {
    Candle(product, minute, close) in rows
  }

  ghost predicate Maps(closes: map<int, real>, minute: int, close: real) {
    minute in closes && closes[minute] == close
  }

  /** Loading finds exactly the stored values. */
  lemma {:induction false} LoadedIs(rows: seq<Candle>, product: string, since: int, m: int, close: real)
    requires Unique(rows) && WholeMinutes(rows)
    ensures Maps(Loaded(rows, product, since), m, close) <==> m >= since && RowAt(rows, product, m, close)
  {
    if rows != [] {
      var r := Last(rows);
      assert rows == Init(rows) + [r] && r in rows;
      assert WholeMinutes(Init(rows));
      LoadedIs(Init(rows), product, since, m, close);
      MinuteIs(r.minute);
      assert forall c :: c in Init(rows) ==> !(c.product == r.product && c.minute == r.minute);
    }
  }

  lemma MinuteIs(m: int)
    ensures m % 60 == 0 ==> MinuteOf(m) == m
    ensures MinuteOf(m) % 60 == 0
  {
  }

  lemma {:induction false} ClosesIs(ticks: seq<Tick>, since: int, m: int, close: real)
    requires DistinctKeys(ticks)
    ensures Maps(Closes(ticks, since), m, close) <==> m >= since && Tick(m, close) in ticks
  {
    if ticks != [] {
      var t := Last(ticks);
      assert ticks == Init(ticks) + [t];
      ClosesIs(Init(ticks), since, m, close);
      assert forall u :: u in Init(ticks) ==> u.at != t.at;
    }
  }

  lemma {:induction false} EarliestIs(ticks: seq<Tick>)
    requires ticks != []
    ensures forall t :: t in ticks ==> Earliest(ticks) <= t.at
  {
    if |ticks| > 1 {
      EarliestIs(Init(ticks));
      assert ticks == Init(ticks) + [Last(ticks)];
    } else {
      assert ticks == [ticks[0]];
    }
  }

  /** With minute-aligned keys the insert always goes through and stores the keys that have no row yet. */
  lemma AlignedInsert(rows: seq<Candle>, product: string, ticks: seq<Tick>)
    requires Unique(rows) && WholeMinutes(rows) && DistinctKeys(ticks) && MinuteKeys(ticks)
    ensures Unique(rows + Fresh(rows, product, ticks)) && WholeMinutes(rows + Fresh(rows, product, ticks))
    ensures forall m, close :: RowAt(Fresh(rows, product, ticks), product, m, close)
                               <==> Tick(m, close) in ticks && !HasMinute(rows, product, m)
  {
    if ticks == [] {
      assert rows + [] == rows;
    } else {
      var from := Earliest(ticks);
      var existing := Existing(rows, product, from);
      EarliestIs(ticks);
      forall t | t in ticks ensures MinuteOf(t.at) == t.at { MinuteIs(t.at); }
      InsertGoesThrough(rows, product, ticks, from);
      forall i, j | 0 <= i < j < |ticks| ensures MinuteOf(ticks[i].at) != MinuteOf(ticks[j].at) {
        assert ticks[i] in ticks && ticks[j] in ticks;
      }
      forall c
        ensures c in Added(existing, product, ticks)
                <==> c.product == product && c.minute !in existing
                     && exists t :: t in ticks && MinuteOf(t.at) == c.minute && t.close == c.close
      {
        AddedHolds(existing, product, ticks, c);
      }
      hide Added;
      forall m, close ensures RowAt(Added(existing, product, ticks), product, m, close)
                              <==> Tick(m, close) in ticks && !HasMinute(rows, product, m) {
        if t: Tick :| t in ticks && MinuteOf(t.at) == m && t.close == close { assert t == Tick(m, close); }
        if Tick(m, close) in ticks { assert MinuteOf(Tick(m, close).at) == m; }
      }
    }
  }

  /** Insert, then load: the union of both maps, where a stored value wins over a new one. */
  lemma InsertIsUnion(rows: seq<Candle>, product: string, ticks: seq<Tick>, since: int)
    requires Unique(rows) && WholeMinutes(rows) && DistinctKeys(ticks) && MinuteKeys(ticks)
    ensures Loaded(rows + Fresh(rows, product, ticks), product, since)
            == Closes(ticks, since) + Loaded(rows, product, since)
  {
    hide Fresh, Loaded, Closes, Unique, WholeMinutes, DistinctKeys, MinuteKeys;
    var rows' := rows + Fresh(rows, product, ticks);
    AlignedInsert(rows, product, ticks);
    var left, right := Loaded(rows', product, since), Closes(ticks, since) + Loaded(rows, product, since);
    forall m: int, close: real ensures Maps(left, m, close) <==> Maps(right, m, close) {
      LoadedIs(rows', product, since, m, close);
      LoadedIs(rows, product, since, m, close);
      ClosesIs(ticks, since, m, close);
      assert RowAt(rows', product, m, close)
             <==> RowAt(rows, product, m, close) || RowAt(Fresh(rows, product, ticks), product, m, close);
      if m in Loaded(rows, product, since) {
        LoadedIs(rows, product, since, m, Loaded(rows, product, since)[m]);
        assert HasMinute(rows, product, m);
      } else if HasMinute(rows, product, m) {
        var c :| c in rows && c.product == product && c.minute == m;
        LoadedIs(rows, product, since, m, c.close);
      }
    }
    SameMap(left, right);
  }

  lemma SameMap(a: map<int, real>, b: map<int, real>)
    requires forall m: int, close: real :: Maps(a, m, close) <==> Maps(b, m, close)
    ensures a == b
  {
    forall m ensures m in a <==> m in b {
      if m in a { assert Maps(a, m, a[m]); }
      if m in b { assert Maps(b, m, b[m]); }
    }
    forall m | m in a ensures a[m] == b[m] {
      assert Maps(a, m, a[m]);
    }
  }
}
