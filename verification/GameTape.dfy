// The in-play trade tape: overlapping polls, stored without losing or repeating a trade.
module GameTape {
  import opened Prelude

  datatype Trade = Trade(tradeId: string, detail: string)

  datatype TapeRow = TapeRow(matchId: int, venue: string, trade: Trade)

  function IdsOf(trades: seq<Trade>): set<string> {
    set t | t in trades :: t.tradeId
  }

  /** Trade ids stored for a venue. */
  function Ids(rows: seq<TapeRow>, venue: string): set<string> {
    set r | r in rows && r.venue == venue :: r.trade.tradeId
  }

  ghost predicate Unique(rows: seq<TapeRow>) {
    forall i, j :: 0 <= i < j < |rows| ==>
      !(rows[i].venue == rows[j].venue && rows[i].trade.tradeId == rows[j].trade.tradeId)
  }

  /** The trades of a batch that are not known yet, each once and in the form it came first. */
  function Unseen(known: set<string>, batch: seq<Trade>): seq<Trade> {
    if batch == [] then []
    else
      Unseen(known, Init(batch)) +
      (if Last(batch).tradeId in known || Last(batch).tradeId in IdsOf(Init(batch)) then [] else [Last(batch)])
  }

  function RowsFor(matchId: int, venue: string, trades: seq<Trade>): seq<TapeRow> {
    seq(|trades|, i requires 0 <= i < |trades| => TapeRow(matchId, venue, trades[i]))
  }

  function Polled(rows: seq<TapeRow>, matchId: int, venue: string, batch: seq<Trade>): seq<TapeRow> {
    rows + RowsFor(matchId, venue, Unseen(Ids(rows, venue), batch))
  }

  class Tape {
    var rows: seq<TapeRow>

    constructor ()
      ensures rows == []
    {
      rows := [];
    }

    /** Look the batch's ids up in chunks of 400, then store what is neither there nor earlier in the batch. */
    method Insert(matchId: int, venue: string, batch: seq<Trade>) returns (inserted: nat)
      requires Unique(rows)
      modifies this
      ensures rows == Polled(old(rows), matchId, venue, batch) && Unique(rows)
      ensures Ids(rows, venue) == Ids(old(rows), venue) + IdsOf(batch)
      ensures inserted == |Ids(rows, venue)| - |Ids(old(rows), venue)|
      ensures forall other :: other != venue ==> Ids(rows, other) == Ids(old(rows), other)
    {
      hide Ids, IdsOf, Unseen, RowsFor, Polled, Unique;
      PolledKeeps(rows, matchId, venue, batch);
      PolledIs(rows, matchId, venue, batch);
      NothingYet(rows, matchId, venue, batch);
      var was := rows;
      var existing := Existing(was, venue, batch);
      inserted := 0;
      for i := 0 to |batch|
        invariant existing == Ids(was, venue) * IdsOf(batch) + IdsOf(batch[..i])
        invariant rows == was + RowsFor(matchId, venue, Unseen(Ids(was, venue), batch[..i]))
        invariant inserted == |Unseen(Ids(was, venue), batch[..i])|
      {
        var r := batch[i];
        SeenNext(Ids(was, venue), batch, i, existing);
        if r.tradeId in existing { continue; }
        existing := existing + {r.tradeId};
        RowsForNext(matchId, venue, Unseen(Ids(was, venue), batch[..i]), r);
        rows := rows + [TapeRow(matchId, venue, r)];
        inserted := inserted + 1;
      }
      assert batch[..|batch|] == batch;
    }
  }

  /** Ids of the batch that are stored already. */
  method Existing(rows: seq<TapeRow>, venue: string, batch: seq<Trade>) returns (existing: set<string>)
    ensures existing == Ids(rows, venue) * IdsOf(batch)
  {
    existing := {};
    var i := 0;
    while i < |batch|
      invariant 0 <= i
      invariant existing == Ids(rows, venue) * IdsOf(batch[..if i < |batch| then i else |batch|])
    {
      var end := if i + 400 < |batch| then i + 400 else |batch|;
      assert batch[..end] == batch[..i] + batch[i..end];
      existing := existing + Ids(rows, venue) * IdsOf(batch[i..end]);
      i := i + 400;
    }
    assert batch[..|batch|] == batch;
  }

  /** What the set of existing ids means while the batch is read. */
  lemma SeenNext(known: set<string>, batch: seq<Trade>, i: nat, existing: set<string>)
    requires i < |batch| && existing == known * IdsOf(batch) + IdsOf(batch[..i])
    ensures existing + {batch[i].tradeId} == known * IdsOf(batch) + IdsOf(batch[..i + 1])
    ensures var seen := batch[i].tradeId in existing;
            Unseen(known, batch[..i + 1])
                == if seen then Unseen(known, batch[..i]) else Unseen(known, batch[..i]) + [batch[i]]
    ensures batch[i].tradeId in existing ==> existing == existing + {batch[i].tradeId}
  {
    hide Unseen;
    assert batch[..i + 1] == batch[..i] + [batch[i]];
    UnseenNext(known, batch[..i], batch[i]);
    assert batch[i].tradeId in IdsOf(batch);
  }

  lemma UnseenNone(known: set<string>)
    ensures Unseen(known, []) == [] && IdsOf([]) == {} && Distinct([])
  {
  }

  lemma PolledIs(rows: seq<TapeRow>, matchId: int, venue: string, batch: seq<Trade>)
    ensures Polled(rows, matchId, venue, batch) == rows + RowsFor(matchId, venue, Unseen(Ids(rows, venue), batch))
  {
  }

  lemma NothingYet(rows: seq<TapeRow>, matchId: int, venue: string, batch: seq<Trade>)
    ensures IdsOf(batch[..0]) == {} && Unseen(Ids(rows, venue), batch[..0]) == []
    ensures rows + RowsFor(matchId, venue, []) == rows
  {
  }

  lemma UnseenNext(known: set<string>, batch: seq<Trade>, r: Trade)
    ensures Unseen(known, batch + [r])
            == if r.tradeId in known || r.tradeId in IdsOf(batch) then Unseen(known, batch)
               else Unseen(known, batch) + [r]
    ensures IdsOf(batch + [r]) == IdsOf(batch) + {r.tradeId}
  {
    assert Init(batch + [r]) == batch;
  }

  lemma RowsForNext(matchId: int, venue: string, trades: seq<Trade>, r: Trade)
    ensures RowsFor(matchId, venue, trades + [r]) == RowsFor(matchId, venue, trades) + [TapeRow(matchId, venue, r)]
  {
  }

  // --- what a poll keeps -----------------------------------------------------------------------

  ghost predicate Distinct(trades: seq<Trade>) {
    forall i, j :: 0 <= i < j < |trades| ==> trades[i].tradeId != trades[j].tradeId
  }

  lemma DistinctNext(trades: seq<Trade>, r: Trade)
    requires Distinct(trades) && r.tradeId !in IdsOf(trades)
    ensures Distinct(trades + [r])
  {
    forall i | 0 <= i < |trades| ensures trades[i].tradeId != r.tradeId {
      assert trades[i] in trades;
    }
  }

  lemma {:induction false} UnseenHolds(known: set<string>, batch: seq<Trade>)
    ensures IdsOf(Unseen(known, batch)) == IdsOf(batch) - known
    ensures Distinct(Unseen(known, batch)) && |Unseen(known, batch)| == |IdsOf(batch) - known|
  {
    hide Unseen, IdsOf, Distinct;
    UnseenNone(known);
    if batch != [] {
      var rest, r := Init(batch), Last(batch);
      UnseenHolds(known, rest);
      assert batch == rest + [r];
      UnseenNext(known, rest, r);
      if r.tradeId in known || r.tradeId in IdsOf(rest) {
        assert IdsOf(batch) - known == IdsOf(rest) - known;
      } else {
        assert IdsOf(batch) - known == (IdsOf(rest) - known) + {r.tradeId};
        UnseenNext(known, Unseen(known, rest), r);
        DistinctNext(Unseen(known, rest), r);
      }
    }
  }

  lemma IdsAppend(rows: seq<TapeRow>, matchId: int, venue: string, trades: seq<Trade>, other: string)
    ensures Ids(rows + RowsFor(matchId, venue, trades), other)
            == Ids(rows, other) + (if other == venue then IdsOf(trades) else {})
  {
    var added := RowsFor(matchId, venue, trades);
    forall t | t in trades ensures TapeRow(matchId, venue, t) in added {
      var i :| 0 <= i < |trades| && trades[i] == t;
      assert added[i] == TapeRow(matchId, venue, t);
    }
  }

  /** A poll keeps (venue, trade id) unique, makes the id set the union, and leaves other venues alone. */
  lemma PolledKeeps(rows: seq<TapeRow>, matchId: int, venue: string, batch: seq<Trade>)
    requires Unique(rows)
    ensures var rows' := Polled(rows, matchId, venue, batch);
            Unique(rows') && Ids(rows', venue) == Ids(rows, venue) + IdsOf(batch)
            && |Unseen(Ids(rows, venue), batch)| == |Ids(rows', venue)| - |Ids(rows, venue)|
            && forall other :: other != venue ==> Ids(rows', other) == Ids(rows, other)
  {
    hide Ids, IdsOf, Unseen, RowsFor, Distinct, Unique;
    var known, added := Ids(rows, venue), Unseen(Ids(rows, venue), batch);
    UnseenHolds(known, batch);
    forall other
      ensures Ids(rows + RowsFor(matchId, venue, added), other)
              == Ids(rows, other) + (if other == venue then IdsOf(batch) - known else {})
    {
      IdsAppend(rows, matchId, venue, added, other);
    }
    assert known + IdsOf(batch) == known + (IdsOf(batch) - known);
    assert known * (IdsOf(batch) - known) == {};
    UniqueTogether(rows, matchId, venue, added);
  }

  lemma UniqueTogether(rows: seq<TapeRow>, matchId: int, venue: string, added: seq<Trade>)
    requires Unique(rows) && Distinct(added) && Ids(rows, venue) * IdsOf(added) == {}
    ensures Unique(rows + RowsFor(matchId, venue, added))
  {
    var rows' := rows + RowsFor(matchId, venue, added);
    forall x | x in IdsOf(added) ensures x !in Ids(rows, venue) {
      assert x !in Ids(rows, venue) * IdsOf(added);
    }
    forall i, j | 0 <= i < |rows| <= j < |rows'|
      ensures !(rows'[i].venue == rows'[j].venue && rows'[i].trade.tradeId == rows'[j].trade.tradeId)
    {
      assert rows[i] in rows && added[j - |rows|] in added;
      assert rows'[i] == rows[i] && rows'[j] == TapeRow(matchId, venue, added[j - |rows|]);
      assert added[j - |rows|].tradeId in IdsOf(added);
      assert rows[i].venue == venue ==> rows[i].trade.tradeId in Ids(rows, venue);
    }
  }

  // --- overlapping polls -----------------------------------------------------------------------

  lemma {:induction false} UnseenSplit(known: set<string>, a: seq<Trade>, b: seq<Trade>)
    ensures Unseen(known, a + b) == Unseen(known, a) + Unseen(known + IdsOf(a), b)
  {
    hide Unseen, IdsOf;
    if b == [] {
      assert a + b == a;
      UnseenNone(known + IdsOf(a));
    } else {
      UnseenSplit(known, a, Init(b));
      assert a + b == (a + Init(b)) + [Last(b)] && b == Init(b) + [Last(b)];
      UnseenNext(known, a + Init(b), Last(b));
      UnseenNext(known + IdsOf(a), Init(b), Last(b));
      IdsTogether(a, Init(b));
    }
  }

  lemma IdsTogether(a: seq<Trade>, b: seq<Trade>)
    ensures IdsOf(a + b) == IdsOf(a) + IdsOf(b)
  {
  }

  /** How trades are divided over polls does not matter: two polls store what one poll of both batches stores. */
  lemma PollsSplit(rows: seq<TapeRow>, matchId: int, venue: string, a: seq<Trade>, b: seq<Trade>)
    requires Unique(rows)
    ensures Polled(Polled(rows, matchId, venue, a), matchId, venue, b) == Polled(rows, matchId, venue, a + b)
  {
    hide Unseen, Ids, IdsOf, Unique, RowsFor;
    PolledKeeps(rows, matchId, venue, a);
    UnseenSplit(Ids(rows, venue), a, b);
    var x, y := Unseen(Ids(rows, venue), a), Unseen(Ids(rows, venue) + IdsOf(a), b);
    RowsForTogether(matchId, venue, x, y);
  }

  lemma RowsForTogether(matchId: int, venue: string, x: seq<Trade>, y: seq<Trade>)
    ensures RowsFor(matchId, venue, x + y) == RowsFor(matchId, venue, x) + RowsFor(matchId, venue, y)
  {
  }

  datatype Poll = Poll(matchId: int, venue: string, batch: seq<Trade>)

  function AfterPolls(rows: seq<TapeRow>, polls: seq<Poll>): seq<TapeRow> {
    if polls == [] then rows
    else Polled(AfterPolls(rows, Init(polls)), Last(polls).matchId, Last(polls).venue, Last(polls).batch)
  }

  /** What the polls of one venue report in sum. */
  function Reported(rows: seq<TapeRow>, polls: seq<Poll>, venue: string): nat {
    if polls == [] then 0
    else
      Reported(rows, Init(polls), venue) +
      (if Last(polls).venue == venue then |Unseen(Ids(AfterPolls(rows, Init(polls)), venue), Last(polls).batch)| else 0)
  }

  function Polls(polls: seq<Poll>, venue: string): set<string> {
    if polls == [] then {}
    else Polls(Init(polls), venue) + (if Last(polls).venue == venue then IdsOf(Last(polls).batch) else {})
  }

  /**
   * Over any run of polls nothing polled is lost, nothing is stored twice, and the reported counts add up to the
   * growth.
   */
  lemma {:induction false} PollsLoseNothing(rows: seq<TapeRow>, polls: seq<Poll>, venue: string)
    requires Unique(rows)
    ensures Unique(AfterPolls(rows, polls)) && rows <= AfterPolls(rows, polls)
    ensures Ids(AfterPolls(rows, polls), venue) == Ids(rows, venue) + Polls(polls, venue)
    ensures Reported(rows, polls, venue) == |Ids(AfterPolls(rows, polls), venue)| - |Ids(rows, venue)|
  {
    hide Polled, Unseen, Ids, IdsOf, Unique;
    if polls != [] {
      PollsLoseNothing(rows, Init(polls), venue);
      var p := Last(polls);
      PolledKeeps(AfterPolls(rows, Init(polls)), p.matchId, p.venue, p.batch);
      PolledAppends(AfterPolls(rows, Init(polls)), p.matchId, p.venue, p.batch);
    }
  }

  lemma PolledAppends(rows: seq<TapeRow>, matchId: int, venue: string, batch: seq<Trade>)
    ensures rows <= Polled(rows, matchId, venue, batch)
  {
  }
}
