// Epoch rows of live/paper twins: created once, ended once, reconciled against the configuration.
module TwinEpochs {
  import opened Prelude
  import opened Sorting

  type Params = map<string, string>

  datatype Epoch = Epoch(twinTag: string, liveTag: string, startedAt: int, endedAt: Option<int>, params: Params,
                         notes: Option<string>)

  datatype Synced = Row(index: nat, drifted: bool) | Duplicate

  function Cut(s: string, n: nat): string {
    if |s| <= n then s else s[..n]
  }

  /** Twin tags are unique in the table. */
  ghost predicate Unique(rows: seq<Epoch>) {
    forall i, j :: 0 <= i < j < |rows| ==> rows[i].twinTag != rows[j].twinTag
  }

  /** Position of the row with a twin tag, or the length of the table. */
  function Find(rows: seq<Epoch>, twinTag: string): (i: nat)
    ensures i <= |rows| && (i < |rows| ==> rows[i].twinTag == twinTag)
    ensures forall j :: 0 <= j < i ==> rows[j].twinTag != twinTag
  {
    if rows == [] then 0 else if rows[0].twinTag == twinTag then 0 else 1 + Find(rows[1..], twinTag)
  }

  predicate Known(rows: seq<Epoch>, twinTag: string) {
    Find(rows, twinTag) < |rows|
  }

  function Opened(twinTag: string, liveTag: string, params: Params, now: int): Epoch {
    Epoch(Cut(twinTag, 24), Cut(liveTag, 32), now, None, params, None)
  }

  function Closed(e: Epoch, now: int, note: Option<string>): Epoch {
    e.(endedAt := Some(now), notes := if note.Some? && note.value != "" then note else e.notes)
  }

  // --- what reconciling closes -----------------------------------------------------------------

  type Pairs = seq<(string, string)>

  /** The twin tag configured for a live tag; a later entry for the same tag wins. */
  function Configured(pairs: Pairs, liveTag: string): Option<string> {
    if pairs == [] then None
    else if Last(pairs).0 == liveTag then Some(Last(pairs).1)
    else Configured(Init(pairs), liveTag)
  }

  predicate Armed(prefixes: seq<string>, liveTag: string) {
    exists i :: 0 <= i < |prefixes| && prefixes[i] <= liveTag
  }

  predicate Superseded(pairs: Option<Pairs>, e: Epoch) {
    pairs.Some? && Configured(pairs.value, e.liveTag).Some? && Configured(pairs.value, e.liveTag).value != e.twinTag
  }

  predicate Stale(prefixes: seq<string>, pairs: Option<Pairs>, e: Epoch) {
    e.endedAt.None? && (!Armed(prefixes, e.liveTag) || Superseded(pairs, e))
  }

  function Note(prefixes: seq<string>, pairs: Option<Pairs>, e: Epoch): (note: string)
    requires Stale(prefixes, pairs, e)
    ensures note != ""
  {
    if !Armed(prefixes, e.liveTag) then e.liveTag + " removed from LIVE_STRATEGIES \U{2014} no longer trading"
    else "superseded by " + Configured(pairs.value, e.liveTag).value + " \U{2014} " + e.liveTag
         + " is still live, but this twin tag was replaced"
  }

  /** The row after a reconcile. */
  function Settled(prefixes: seq<string>, pairs: Option<Pairs>, now: int, e: Epoch): Epoch {
    if Stale(prefixes, pairs, e) then Closed(e, now, Some(Note(prefixes, pairs, e))) else e
  }

  function Reconciled(rows: seq<Epoch>, prefixes: seq<string>, pairs: Option<Pairs>, now: int): seq<Epoch> {
    seq(|rows|, i requires 0 <= i < |rows| => Settled(prefixes, pairs, now, rows[i]))
  }

  function Open(rows: seq<Epoch>): seq<Epoch> {
    if rows == [] then [] else Open(Init(rows)) + (if Last(rows).endedAt.None? then [Last(rows)] else [])
  }

  function ByStart(e: Epoch): real {
    e.startedAt as real
  }

  /** Open rows, the oldest first. */
  function Active(rows: seq<Epoch>): seq<Epoch> {
    Sort(Open(rows), ByStart)
  }

  lemma {:induction false} OpenHolds(rows: seq<Epoch>, e: Epoch)
    ensures e in Open(rows) <==> e in rows && e.endedAt.None?
  {
    if rows != [] {
      OpenHolds(Init(rows), e);
      assert rows == Init(rows) + [Last(rows)];
    }
  }

  lemma ActiveHolds(rows: seq<Epoch>, e: Epoch)
    ensures e in Active(rows) <==> e in rows && e.endedAt.None?
  {
    OpenHolds(rows, e);
    SortSorts(Open(rows), ByStart);
    assert e in Active(rows) <==> e in multiset(Open(rows));
  }

  /** Twin tags of the rows a reconcile closes, in the order it closes them. */
  function StaleTags(rows: seq<Epoch>, prefixes: seq<string>, pairs: Option<Pairs>): seq<string> {
    if rows == [] then []
    else
      StaleTags(Init(rows), prefixes, pairs) +
      (if Stale(prefixes, pairs, Last(rows)) then [Last(rows).twinTag] else [])
  }

  // --- the operations as functions of the rows -------------------------------------------------

  function SyncedRows(rows: seq<Epoch>, twinTag: string, liveTag: string, params: Params, now: int): seq<Epoch> {
    if Known(rows, twinTag) || Known(rows, Cut(twinTag, 24)) then rows
    else rows + [Opened(twinTag, liveTag, params, now)]
  }

  function SyncResult(rows: seq<Epoch>, twinTag: string, params: Params): Synced {
    if Known(rows, twinTag) then Row(Find(rows, twinTag), rows[Find(rows, twinTag)].params != params)
    else if Known(rows, Cut(twinTag, 24)) then Duplicate
    else Row(|rows|, false)
  }

  predicate Endable(rows: seq<Epoch>, twinTag: string) {
    Known(rows, twinTag) && rows[Find(rows, twinTag)].endedAt.None?
  }

  function EndedRows(rows: seq<Epoch>, twinTag: string, note: Option<string>, now: int): seq<Epoch> {
    if Endable(rows, twinTag) then rows[Find(rows, twinTag) := Closed(rows[Find(rows, twinTag)], now, note)] else rows
  }

  // --- the table -------------------------------------------------------------------------------

  class TwinTable {
    var rows: seq<Epoch>

    constructor ()
      ensures rows == []
    {
      rows := [];
    }

    /** Get or create. A tag cut to the column width can meet another row, and the unique constraint refuses it. */
    method Sync(twinTag: string, liveTag: string, params: Params, now: int) returns (r: Synced)
      requires Unique(rows)
      modifies this
      ensures Unique(rows)
      ensures rows == SyncedRows(old(rows), twinTag, liveTag, params, now)
              && r == SyncResult(old(rows), twinTag, params)
    {
      var i := Find(rows, twinTag);
      if i < |rows| { return Row(i, rows[i].params != params); }
      if Find(rows, Cut(twinTag, 24)) < |rows| { return Duplicate; }
      rows := rows + [Opened(twinTag, liveTag, params, now)];
      return Row(|rows| - 1, false);
    }

    method End(twinTag: string, note: Option<string>, now: int) returns (ended: bool)
      requires Unique(rows)
      modifies this
      ensures Unique(rows)
      ensures rows == EndedRows(old(rows), twinTag, note, now) && ended == Endable(old(rows), twinTag)
    {
      var i := Find(rows, twinTag);
      if i == |rows| || rows[i].endedAt.Some? { return false; }
      rows := rows[i := Closed(rows[i], now, note)];
      return true;
    }

    /** Close every open row whose live book is retired or whose twin tag was replaced. */
    method Reconcile(prefixes: seq<string>, pairs: Option<Pairs>, now: int) returns (closed: seq<string>)
      requires Unique(rows)
      modifies this
      ensures Unique(rows)
      ensures rows == Reconciled(old(rows), prefixes, pairs, now)
      ensures closed == StaleTags(Active(old(rows)), prefixes, pairs)
    {
      hide Stale, Settled, Active, Note, Partly, Find, Unique, Known;
      closed := [];
      ghost var was := rows;
      var active := Active(rows);
      ActiveIsUnique(rows);
      NothingSettled(rows, prefixes, pairs, now);
      for k := 0 to |active|
        invariant Partly(was, rows, active[..k], prefixes, pairs, now)
        invariant closed == StaleTags(active[..k], prefixes, pairs)
      {
        var row := active[k];
        assert active[..k + 1] == active[..k] + [row];
        assert Init(active[..k + 1]) == active[..k] && Last(active[..k + 1]) == row;
        ActiveHolds(was, row);
        assert row !in active[..k];
        PartlyNext(was, rows, active[..k], row, prefixes, pairs, now);
        SettledIs(prefixes, pairs, now, row);
        if !Stale(prefixes, pairs, row) { continue; }
        var ended := End(row.twinTag, Some(Note(prefixes, pairs, row)), now);
        closed := closed + [row.twinTag];
      }
      assert active[..|active|] == active;
      AllSettled(was, rows, prefixes, pairs, now);
    }
  }

  /** The rows in `done` are settled, all others are as they were. */
  ghost predicate Partly(was: seq<Epoch>, rows: seq<Epoch>, done: seq<Epoch>, prefixes: seq<string>,
                         pairs: Option<Pairs>, now: int)
  {
    |rows| == |was| && forall i :: 0 <= i < |was| ==>
      rows[i] == if was[i] in done then Settled(prefixes, pairs, now, was[i]) else was[i]
  }

  lemma NothingSettled(rows: seq<Epoch>, prefixes: seq<string>, pairs: Option<Pairs>, now: int)
    ensures Partly(rows, rows, [], prefixes, pairs, now)
  {
  }

  /** The next open row is still found by its tag, and settling it settles that row alone. */
  lemma PartlyNext(was: seq<Epoch>, rows: seq<Epoch>, done: seq<Epoch>, row: Epoch, prefixes: seq<string>,
                   pairs: Option<Pairs>, now: int)
    requires Unique(was) && row in was && row !in done && row.endedAt.None?
    requires Partly(was, rows, done, prefixes, pairs, now)
    ensures var at := Find(rows, row.twinTag);
            Unique(rows) && Known(rows, row.twinTag) && rows[at] == row && rows[at := row] == rows
            && Partly(was, rows[at := Settled(prefixes, pairs, now, row)], done + [row], prefixes, pairs, now)
  {
    hide Stale, Note;
    var at := Find(rows, row.twinTag);
    assert forall i :: 0 <= i < |was| ==> rows[i].twinTag == was[i].twinTag;
    Located(was, rows, row, at);
  }

  lemma AllSettled(was: seq<Epoch>, rows: seq<Epoch>, prefixes: seq<string>, pairs: Option<Pairs>, now: int)
    requires Unique(was) && Partly(was, rows, Active(was), prefixes, pairs, now)
    ensures rows == Reconciled(was, prefixes, pairs, now) && Unique(rows)
  {
    hide Stale, Settled, Note;
    forall i | 0 <= i < |was|
      ensures rows[i] == Settled(prefixes, pairs, now, was[i]) && rows[i].twinTag == was[i].twinTag
    {
      ActiveHolds(was, was[i]);
      SettledIs(prefixes, pairs, now, was[i]);
    }
  }

  lemma SettledIs(prefixes: seq<string>, pairs: Option<Pairs>, now: int, e: Epoch)
    ensures Stale(prefixes, pairs, e)
            ==> Settled(prefixes, pairs, now, e) == Closed(e, now, Some(Note(prefixes, pairs, e)))
    ensures !Stale(prefixes, pairs, e) ==> Settled(prefixes, pairs, now, e) == e
    ensures e.endedAt.Some? ==> !Stale(prefixes, pairs, e)
  {
  }

  /** A row that is open and unchanged so far is found by its tag. */
  lemma Located(was: seq<Epoch>, rows: seq<Epoch>, row: Epoch, at: nat)
    requires Unique(was) && row in was && |rows| == |was|
    requires forall i :: 0 <= i < |was| ==> rows[i].twinTag == was[i].twinTag
    requires at == Find(rows, row.twinTag)
    ensures at < |was| && was[at] == row
    ensures forall i :: 0 <= i < |was| && i != at ==> was[i] != row
  {
  }

  lemma {:induction false} OpenIsUnique(rows: seq<Epoch>)
    requires Unique(rows)
    ensures NoDuplicates(Open(rows))
  {
    if rows != [] {
      OpenIsUnique(Init(rows));
      OpenHolds(Init(rows), Last(rows));
      assert forall i :: 0 <= i < |rows| - 1 ==> rows[i].twinTag != Last(rows).twinTag;
      assert Last(rows) !in Init(rows);
    }
  }

  lemma ActiveIsUnique(rows: seq<Epoch>)
    requires Unique(rows)
    ensures NoDuplicates(Active(rows))
  {
    OpenIsUnique(rows);
    SortSorts(Open(rows), ByStart);
    SameDuplicates(Open(rows), Active(rows));
  }

  lemma {:induction false} CountsOnce(s: seq<Epoch>)
    ensures NoDuplicates(s) <==> forall e :: multiset(s)[e] <= 1
  {
    if s != [] {
      CountsOnce(Init(s));
      assert s == Init(s) + [Last(s)];
      if NoDuplicates(s) {
        assert Last(s) !in Init(s);
      } else if NoDuplicates(Init(s)) {
        var i :| 0 <= i < |s| - 1 && s[i] == Last(s);
        assert Init(s)[i] == Last(s);
        assert multiset(s)[Last(s)] >= 2;
      } else {
        var e :| multiset(Init(s))[e] > 1;
        assert multiset(s)[e] > 1;
      }
    }
  }

  lemma SameDuplicates(s: seq<Epoch>, u: seq<Epoch>)
    requires multiset(s) == multiset(u) && NoDuplicates(s)
    ensures NoDuplicates(u)
  {
    CountsOnce(s);
    CountsOnce(u);
  }

  // --- every run -------------------------------------------------------------------------------

  datatype Event =
    | Sync(twinTag: string, liveTag: string, params: Params, now: int)
    | End(twinTag: string, note: Option<string>, now: int)
    | Reconcile(prefixes: seq<string>, pairs: Option<Pairs>, now: int)

  function After(rows: seq<Epoch>, e: Event): seq<Epoch> {
    match e
    case Sync(twinTag, liveTag, params, now) => SyncedRows(rows, twinTag, liveTag, params, now)
    case End(twinTag, note, now) => EndedRows(rows, twinTag, note, now)
    case Reconcile(prefixes, pairs, now) => Reconciled(rows, prefixes, pairs, now)
  }

  function Exec(rows: seq<Epoch>, events: seq<Event>): seq<Epoch> {
    if events == [] then rows else After(Exec(rows, Init(events)), Last(events))
  }

  /** The same epoch later: its identity, start and parameters stay, and once ended nothing changes any more. */
  predicate Later(e: Epoch, e': Epoch) {
    && e'.twinTag == e.twinTag && e'.liveTag == e.liveTag && e'.startedAt == e.startedAt && e'.params == e.params
    && (e.endedAt.Some? ==> e' == e)
  }

  ghost predicate Evolves(rows: seq<Epoch>, rows': seq<Epoch>) {
    |rows| <= |rows'| && forall i :: 0 <= i < |rows| ==> Later(rows[i], rows'[i])
  }

  lemma AfterEvolves(rows: seq<Epoch>, e: Event)
    requires Unique(rows)
    ensures Evolves(rows, After(rows, e)) && Unique(After(rows, e))
  {
    hide Stale, Note, Find;
    if e.Reconcile? {
      forall i | 0 <= i < |rows| ensures Later(rows[i], Reconciled(rows, e.prefixes, e.pairs, e.now)[i]) {
        SettledIs(e.prefixes, e.pairs, e.now, rows[i]);
      }
    }
  }

  /** Over any run an epoch keeps its tags, start and parameters, and its end is written at most once. */
  lemma {:induction false} RunEvolves(rows: seq<Epoch>, events: seq<Event>)
    requires Unique(rows)
    ensures Evolves(rows, Exec(rows, events)) && Unique(Exec(rows, events))
  {
    if events != [] {
      hide After;
      RunEvolves(rows, Init(events));
      AfterEvolves(Exec(rows, Init(events)), Last(events));
    }
  }

  lemma FindIs(rows: seq<Epoch>, i: nat)
    requires Unique(rows) && i < |rows|
    ensures Find(rows, rows[i].twinTag) == i
  {
  }

  /** Tags as the column can hold them. */
  ghost predicate TagsFit(rows: seq<Epoch>) {
    forall i :: 0 <= i < |rows| ==> |rows[i].twinTag| <= 24
  }

  lemma {:induction false} TagsAlwaysFit(rows: seq<Epoch>, events: seq<Event>)
    requires TagsFit(rows)
    ensures TagsFit(Exec(rows, events))
  {
    if events != [] {
      hide Note, Stale;
      TagsAlwaysFit(rows, Init(events));
    }
  }

  /**
   * Whatever happens after an epoch was created, a later sync of its tag finds that row and reports drift exactly when
   * the parameters differ from those of the creation; a tag longer than its column is never found and refused instead.
   */
  lemma DriftIsAgainstTheFirstParams(rows: seq<Epoch>, twinTag: string, liveTag: string, params: Params, now: int,
                                     events: seq<Event>, params': Params)
    requires Unique(rows) && TagsFit(rows) && SyncResult(rows, twinTag, params) == Row(|rows|, false)
    ensures SyncResult(Exec(SyncedRows(rows, twinTag, liveTag, params, now), events), twinTag, params')
            == if |twinTag| <= 24 then Row(|rows|, params' != params) else Duplicate
  {
    hide Exec;
    var created := SyncedRows(rows, twinTag, liveTag, params, now);
    var later := Exec(created, events);
    assert created == rows + [Opened(twinTag, liveTag, params, now)];
    assert Unique(created) && TagsFit(created);
    RunEvolves(created, events);
    TagsAlwaysFit(created, events);
    assert Later(created[|rows|], later[|rows|]);
    FindIs(later, |rows|);
  }

  // --- after a reconcile -----------------------------------------------------------------------

  /** Exactly the open rows that are armed and not superseded stay open. */
  lemma ReconcileLeavesOpen(rows: seq<Epoch>, prefixes: seq<string>, pairs: Option<Pairs>, now: int, i: nat)
    requires i < |rows|
    ensures var e := Reconciled(rows, prefixes, pairs, now)[i];
            e.endedAt.None? <==>
              rows[i].endedAt.None? && Armed(prefixes, rows[i].liveTag) && !Superseded(pairs, rows[i])
  {
  }

  predicate OpenAt(rows: seq<Epoch>, i: int) {
    0 <= i < |rows| && rows[i].endedAt.None?
  }

  /** An open epoch of a live tag, which is stored cut to the width of its column. */
  predicate OpenFor(rows: seq<Epoch>, i: int, liveTag: string) {
    OpenAt(rows, i) && rows[i].liveTag == Cut(liveTag, 32)
  }

  ghost predicate AtMostOne(rows: seq<Epoch>, liveTag: string) {
    forall i, j :: OpenFor(rows, i, liveTag) && OpenFor(rows, j, liveTag) ==> i == j
  }

  /**
   * Afterwards every open epoch has an armed live tag, and a configured live tag that fits its column has at most one
   * open epoch, the one of its configured twin.
   */
  lemma ReconciledBook(rows: seq<Epoch>, prefixes: seq<string>, pairs: Pairs, now: int, liveTag: string)
    requires Unique(rows)
    ensures var rows' := Reconciled(rows, prefixes, Some(pairs), now);
            (forall i :: OpenAt(rows', i) ==> Armed(prefixes, rows'[i].liveTag))
            && (|liveTag| <= 32 && Configured(pairs, liveTag).Some? ==>
                  AtMostOne(rows', liveTag)
                  && forall i :: OpenFor(rows', i, liveTag) ==> rows'[i].twinTag == Configured(pairs, liveTag).value)
  {
    hide Armed, Note;
    var rows' := Reconciled(rows, prefixes, Some(pairs), now);
    AfterEvolves(rows, Reconcile(prefixes, Some(pairs), now));
    forall i | OpenAt(rows', i)
      ensures Armed(prefixes, rows'[i].liveTag)
      ensures Configured(pairs, rows'[i].liveTag).Some?
              ==> rows'[i].twinTag == Configured(pairs, rows'[i].liveTag).value
    {
      ReconcileLeavesOpen(rows, prefixes, Some(pairs), now, i);
      assert Later(rows[i], rows'[i]);
    }
  }

  /** Every table the reconcile can meet. */
  ghost predicate AlwaysAtMostOne(prefixes: seq<string>, pairs: Pairs, now: int, liveTag: string) {
    forall rows :: Unique(rows) ==> AtMostOne(Reconciled(rows, prefixes, Some(pairs), now), liveTag)
  }

  function TwoSyncs(liveTag: string): seq<Epoch> {
    [Opened("a", liveTag, map[], 0), Opened("b", liveTag, map[], 1)]
  }

  /** Two syncs of one live tag give these rows. */
  lemma TwoSyncsHappen(liveTag: string)
    ensures Exec([], [Sync("a", liveTag, map[], 0), Sync("b", liveTag, map[], 1)]) == TwoSyncs(liveTag)
            && Unique(TwoSyncs(liveTag))
  {
    var a, b := Sync("a", liveTag, map[], 0), Sync("b", liveTag, map[], 1);
    assert Init([a, b]) == [a] && Init([a]) == [];
    assert Exec([], []) == [] && Exec([], [a]) == [Opened("a", liveTag, map[], 0)];
    assert !Known([Opened("a", liveTag, map[], 0)], "b");
  }

  /**
   * When a reconcile leaves at most one open epoch per live tag, whatever the table: exactly when the tag as it is
   * stored is not armed, or has a configured twin. A tag longer than its column has none of its own.
   */
  lemma OneEpochPerLiveTag(prefixes: seq<string>, pairs: Pairs, now: int, liveTag: string)
    ensures AlwaysAtMostOne(prefixes, pairs, now, liveTag)
            <==> !Armed(prefixes, Cut(liveTag, 32)) || Configured(pairs, Cut(liveTag, 32)).Some?
  {
    hide Armed, Note, Reconciled;
    var stored := Cut(liveTag, 32);
    forall rows | Unique(rows) && (!Armed(prefixes, stored) || Configured(pairs, stored).Some?)
      ensures AtMostOne(Reconciled(rows, prefixes, Some(pairs), now), liveTag)
    {
      ReconciledBook(rows, prefixes, pairs, now, stored);
    }
    if Armed(prefixes, stored) && Configured(pairs, stored).None? {
      var rows := TwoSyncs(liveTag);
      BothStayOpen(prefixes, pairs, now, liveTag);
      assert !AtMostOne(Reconciled(rows, prefixes, Some(pairs), now), liveTag);
    }
  }

  lemma BothStayOpen(prefixes: seq<string>, pairs: Pairs, now: int, liveTag: string)
    requires Armed(prefixes, Cut(liveTag, 32)) && Configured(pairs, Cut(liveTag, 32)).None?
    ensures Unique(TwoSyncs(liveTag))
    ensures var rows' := Reconciled(TwoSyncs(liveTag), prefixes, Some(pairs), now);
            OpenFor(rows', 0, liveTag) && OpenFor(rows', 1, liveTag) && !AtMostOne(rows', liveTag)
  {
    hide Armed, Note;
  }

  /** A configured live tag of more than 32 characters keeps both of its epochs open. */
  lemma LongLiveTagKeepsTwo(liveTag: string, now: int)
    requires |liveTag| > 32
    ensures var rows := Exec([], [Sync("a", liveTag, map[], 0), Sync("b", liveTag, map[], 1)]);
            !AtMostOne(Reconciled(rows, [liveTag[..6]], Some([(liveTag, "b")]), now), liveTag)
  {
    TwoSyncsHappen(liveTag);
    assert liveTag[..6] <= Cut(liveTag, 32) && [liveTag[..6]][0] == liveTag[..6];
    assert Init([(liveTag, "b")]) == [] && Configured([(liveTag, "b")], Cut(liveTag, 32)) == None;
    BothStayOpen([liveTag[..6]], [(liveTag, "b")], now, liveTag);
  }

  lemma {:induction false} NoStaleTags(rows: seq<Epoch>, prefixes: seq<string>, pairs: Option<Pairs>)
    requires forall e :: e in rows ==> !Stale(prefixes, pairs, e)
    ensures StaleTags(rows, prefixes, pairs) == []
  {
    if rows != [] { NoStaleTags(Init(rows), prefixes, pairs); }
  }

  /** A second reconcile closes nothing, whenever it comes. */
  lemma SecondReconcileIsIdle(rows: seq<Epoch>, prefixes: seq<string>, pairs: Option<Pairs>, now: int, now': int)
    ensures var rows' := Reconciled(rows, prefixes, pairs, now);
            Reconciled(rows', prefixes, pairs, now') == rows' && StaleTags(Active(rows'), prefixes, pairs) == []
  {
    hide Armed, Note, Active, Superseded;
    var rows' := Reconciled(rows, prefixes, pairs, now);
    forall i | 0 <= i < |rows'| ensures !Stale(prefixes, pairs, rows'[i]) {
      SettledIs(prefixes, pairs, now, rows[i]);
    }
    forall e | e in Active(rows') ensures !Stale(prefixes, pairs, e) {
      ActiveHolds(rows', e);
    }
    NoStaleTags(Active(rows'), prefixes, pairs);
  }

  // --- what each operation writes, row by row --------------------------------------------------

  /** Ending stamps the one open row of the tag, keeps its notes unless new ones are given, and reports that row. */
  lemma EndWrites(rows: seq<Epoch>, twinTag: string, note: Option<string>, now: int, k: nat)
    requires Unique(rows) && k < |rows|
    ensures |EndedRows(rows, twinTag, note, now)| == |rows|
    ensures EndedRows(rows, twinTag, note, now)[k]
            == if rows[k].twinTag == twinTag && rows[k].endedAt.None?
               then rows[k].(endedAt := Some(now), notes := if note in {None, Some("")} then rows[k].notes else note)
               else rows[k]
    ensures rows[k].twinTag == twinTag ==> (Endable(rows, twinTag) <==> rows[k].endedAt.None?)
    ensures (forall e :: e in rows ==> e.twinTag != twinTag) ==> !Endable(rows, twinTag)
  {
    if rows[k].twinTag == twinTag { FindIs(rows, k); }
  }

  /** Syncing finds the row of the tag; else stores an open row of the cut tags, unless another row has the cut tag. */
  lemma SyncWrites(rows: seq<Epoch>, twinTag: string, liveTag: string, params: Params, now: int)
    requires Unique(rows)
    ensures var stored := if |twinTag| <= 24 then twinTag else twinTag[..24];
            var live := if |liveTag| <= 32 then liveTag else liveTag[..32];
            var rows', r := SyncedRows(rows, twinTag, liveTag, params, now), SyncResult(rows, twinTag, params);
            if k: nat :| k < |rows| && rows[k].twinTag == twinTag
            then rows' == rows && r == Row(k, rows[k].params != params)
            else if exists e :: e in rows && e.twinTag == stored then rows' == rows && r == Duplicate
            else rows' == rows + [Epoch(stored, live, now, None, params, None)] && r == Row(|rows|, false)
  {
  }

  /** The last pair of the configuration that names the live tag. */
  ghost predicate LastFor(pairs: Pairs, liveTag: string, twin: string) {
    exists k :: 0 <= k < |pairs| && pairs[k] == (liveTag, twin)
                && forall m :: k < m < |pairs| ==> pairs[m].0 != liveTag
  }

  lemma {:induction false} ConfiguredIsLast(pairs: Pairs, liveTag: string, twin: string)
    ensures Configured(pairs, liveTag) == Some(twin) <==> LastFor(pairs, liveTag, twin)
  {
    if pairs != [] {
      ConfiguredIsLast(Init(pairs), liveTag, twin);
      if Last(pairs) == (liveTag, twin) { assert pairs[|pairs| - 1] == (liveTag, twin); }
      if k :| 0 <= k < |pairs| && pairs[k] == (liveTag, twin) && forall m :: k < m < |pairs| ==> pairs[m].0 != liveTag {
        if k < |pairs| - 1 {
          assert Init(pairs)[k] == (liveTag, twin) && pairs[|pairs| - 1].0 != liveTag;
          assert forall m :: k < m < |pairs| - 1 ==> Init(pairs)[m] == pairs[m];
        }
      }
      if LastFor(Init(pairs), liveTag, twin) && Last(pairs).0 != liveTag {
        var k :| 0 <= k < |pairs| - 1 && Init(pairs)[k] == (liveTag, twin)
                 && forall m :: k < m < |pairs| - 1 ==> Init(pairs)[m].0 != liveTag;
        assert pairs[k] == (liveTag, twin);
        forall m | k < m < |pairs| ensures pairs[m].0 != liveTag {
          if m < |pairs| - 1 { assert Init(pairs)[m] == pairs[m]; }
        }
      }
    }
  }

  /**
   * Reconciling closes an open row whose live tag begins with no prefix, or for which another twin is configured now,
   * and says which in its notes; all other rows stay.
   */
  lemma ReconcileWrites(rows: seq<Epoch>, prefixes: seq<string>, pairs: Option<Pairs>, now: int, k: nat)
    requires k < |rows|
    ensures var e, e' := rows[k], Reconciled(rows, prefixes, pairs, now)[k];
            var retired := forall p :: p in prefixes ==> !(p <= e.liveTag);
      && (e.endedAt.Some? ==> e' == e)
      && (e.endedAt.None? && retired ==>
            e' == e.(endedAt := Some(now),
                     notes := Some(e.liveTag + " removed from LIVE_STRATEGIES \U{2014} no longer trading")))
      && (e.endedAt.None? && !retired ==>
            (forall twin :: pairs.Some? && LastFor(pairs.value, e.liveTag, twin) && twin != e.twinTag ==>
               e' == e.(endedAt := Some(now),
                        notes := Some("superseded by " + twin + " \U{2014} " + e.liveTag
                                      + " is still live, but this twin tag was replaced")))
            && ((pairs.None? || forall twin :: LastFor(pairs.value, e.liveTag, twin) ==> twin == e.twinTag)
                ==> e' == e))
  {
    var e := rows[k];
    PrefixesArm(prefixes, e.liveTag);
    if pairs.Some? {
      forall twin ensures Configured(pairs.value, e.liveTag) == Some(twin) <==> LastFor(pairs.value, e.liveTag, twin) {
        ConfiguredIsLast(pairs.value, e.liveTag, twin);
      }
    }
    hide Armed, LastFor;
  }

  lemma PrefixesArm(prefixes: seq<string>, liveTag: string)
    ensures Armed(prefixes, liveTag) <==> exists p :: p in prefixes && p <= liveTag
  {
    if i :| 0 <= i < |prefixes| && prefixes[i] <= liveTag { assert prefixes[i] in prefixes; }
    if p :| p in prefixes && p <= liveTag { var i :| 0 <= i < |prefixes| && prefixes[i] == p; }
  }

  ghost predicate InOrder(tags: seq<string>, a: string, b: string) {
    exists i, j :: 0 <= i < j < |tags| && tags[i] == a && tags[j] == b
  }

  /** A reconcile reports the twin tags of exactly the rows it closes, earlier starts first. */
  lemma ReconcileReports(rows: seq<Epoch>, prefixes: seq<string>, pairs: Option<Pairs>, e: Epoch, f: Epoch)
    requires Unique(rows) && e in rows && f in rows
    ensures var closed := StaleTags(Active(rows), prefixes, pairs);
      && (e.twinTag in closed <==> Stale(prefixes, pairs, e))
      && (Stale(prefixes, pairs, e) && Stale(prefixes, pairs, f) && e.startedAt < f.startedAt ==>
            InOrder(closed, e.twinTag, f.twinTag))
  {
    hide Stale, Active;
    ActiveHolds(rows, e);
    ActiveHolds(rows, f);
    StaleIsOpen(prefixes, pairs, e);
    StaleIsOpen(prefixes, pairs, f);
    forall x | x in Active(rows) ensures x in rows { ActiveHolds(rows, x); }
    TagsHold(Active(rows), prefixes, pairs, e.twinTag);
    assert forall x :: x in rows && x.twinTag == e.twinTag ==> x == e;
    if Stale(prefixes, pairs, e) && Stale(prefixes, pairs, f) && e.startedAt < f.startedAt {
      ActiveOrdered(rows);
      TagsOrdered(Active(rows), prefixes, pairs, e, f);
    }
  }

  lemma StaleIsOpen(prefixes: seq<string>, pairs: Option<Pairs>, e: Epoch)
    ensures Stale(prefixes, pairs, e) ==> e.endedAt.None?
  {
  }

  lemma ActiveOrdered(rows: seq<Epoch>)
    ensures Ordered(Active(rows), ByStart)
  {
    SortSorts(Open(rows), ByStart);
  }

  lemma {:induction false} TagsHold(s: seq<Epoch>, prefixes: seq<string>, pairs: Option<Pairs>, tag: string)
    ensures tag in StaleTags(s, prefixes, pairs)
            <==> exists e :: e in s && Stale(prefixes, pairs, e) && e.twinTag == tag
  {
    hide Stale;
    if s != [] {
      TagsHold(Init(s), prefixes, pairs, tag);
      assert s == Init(s) + [Last(s)];
    }
  }

  lemma {:induction false} TagsOrdered(s: seq<Epoch>, prefixes: seq<string>, pairs: Option<Pairs>, e: Epoch, f: Epoch)
    requires Ordered(s, ByStart) && e in s && f in s && e.startedAt < f.startedAt
    requires Stale(prefixes, pairs, e) && Stale(prefixes, pairs, f)
    ensures InOrder(StaleTags(s, prefixes, pairs), e.twinTag, f.twinTag)
  {
    hide Stale;
    var tags, before := StaleTags(s, prefixes, pairs), StaleTags(Init(s), prefixes, pairs);
    assert s == Init(s) + [Last(s)];
    var k :| 0 <= k < |s| && s[k] == f;
    assert ByStart(s[k]) <= ByStart(s[|s| - 1]);
    if f in Init(s) {
      TagsOrdered(Init(s), prefixes, pairs, e, f);
      var i, j :| 0 <= i < j < |before| && before[i] == e.twinTag && before[j] == f.twinTag;
      assert before <= tags;
      assert tags[i] == e.twinTag && tags[j] == f.twinTag;
    } else {
      TagsHold(Init(s), prefixes, pairs, e.twinTag);
      var i :| 0 <= i < |before| && before[i] == e.twinTag;
      assert tags == before + [f.twinTag];
      assert tags[i] == e.twinTag && tags[|before|] == f.twinTag;
    }
  }
}
