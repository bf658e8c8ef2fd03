// What every interleaving of runs, kills and added rows leaves in the bucket.
module ArchiveSafety {
  import opened Prelude
  import opened ArchiveProtocol
  import opened ArchiveInvariant

  lemma SubmapTrans(a: Table, b: Table, c: Table)
    requires Submap(a, b) && Submap(b, c)
    ensures Submap(a, c)
  {
  }

  lemma RangeGrows(t: Table, t': Table, idStart: nat, idEnd: nat)
    requires Submap(t, t')
    ensures Submap(Range(t, idStart, idEnd), Range(t', idStart, idEnd))
  {
  }

  /** Added rows leave what was already exported a part of the table. */
  lemma BucketOutlivesRows(b: Bucket, t: Table, t': Table)
    requires BucketOk(b, t, Serial) && Submap(t, t')
    ensures BucketOk(b, t', Serial)
  {
    forall k | k in b ensures ObjectOk(k, b, t', Serial) {
      assert ObjectOk(k, b, t, Serial);
      if k.DataKey? {
        RangeGrows(t, t', k.idStart, k.idEnd);
        SubmapTrans(b[k].rows, Range(t, k.idStart, k.idEnd), Range(t', k.idStart, k.idEnd));
      }
    }
  }

  lemma RunOutlivesRows(r: Run, b: Bucket, t: Table, t': Table)
    requires RunOk(r, b, t, Serial) && Submap(t, t')
    ensures RunOk(r, b, t', Serial)
  {
    var w := r.work;
    if Progress(w, b, t, Serial) {
      SubmapTrans(w.snapshot, t, t');
      assert Progress(w, b, t', Serial);
    }
    if (r.pc.PutData? || r.pc.PutManifest?) && Exported(w, r.pc.rows, t, Serial) {
      RangeGrows(t, t', w.next, ChunkEnd(w));
      SubmapTrans(r.pc.rows, Range(t, w.next, ChunkEnd(w)), Range(t', w.next, ChunkEnd(w)));
    }
    hide Progress, Submap, Range, AllStored, Tiles, RowsIn, Paired;
  }

  /** Every allowed step keeps the invariant and everything that is stored. */
  lemma StepKeeps(s: System, a: Action, mode: Mode)
    requires !mode.Unrestricted? && Inv(s, mode) && Allowed(s, a, mode)
    ensures Inv(Step(s, a), mode)
    ensures Keeps(s.bucket, Step(s, a).bucket)
    ensures mode.Serial? && CompleteKey in s.bucket ==> Step(s, a).bucket[CompleteKey] == s.bucket[CompleteKey]
  {
    match a {
      case AddRow(id, row) => if mode.Serial? { AddRowKeeps(s, id, row); } else { AddOutwardKeeps(s, id, row); }
      case Start(i, chunkRows) => hide BucketOk;
      case Do(i, env) => DoKeeps(s, i, env, mode);
      case Kill(i) => hide BucketOk, RunOk;
    }
  }

  lemma AddRowKeeps(s: System, id: nat, row: Row)
    requires Inv(s, Serial) && id !in s.table
    ensures Inv(Step(s, AddRow(id, row)), Serial)
  {
    var t' := s.table[id := row];
    assert Submap(s.table, t');
    BucketOutlivesRows(s.bucket, s.table, t');
    forall i | i in s.runs ensures RunOk(s.runs[i], s.bucket, t', Serial) {
      RunOutlivesRows(s.runs[i], s.bucket, s.table, t');
    }
    hide RunOk, BucketOk;
  }

  /** A row added below or above the ids that are there leaves every range between them as it was. */
  lemma InsideStays(t: Table, id: nat, row: Row, idStart: nat, idEnd: nat)
    requires id !in t && !Between(t, id) && Inside(t, idStart, idEnd)
    ensures Range(t[id := row], idStart, idEnd) == Range(t, idStart, idEnd) && Inside(t[id := row], idStart, idEnd)
  {
    var a, b :| a in t && b in t && a <= idStart && idEnd <= b + 1;
    assert a in t[id := row] && b in t[id := row];
    assert !(idStart <= id < idEnd);
  }

  lemma ProgressOutlivesRows(w: Work, b: Bucket, t: Table, id: nat, row: Row)
    requires id !in t && !Between(t, id) && Progress(w, b, t, Outward)
    ensures Progress(w, b, t[id := row], Outward)
  {
    SnapshotEnds(w, b, t, Outward);
    InsideStays(t, id, row, w.minId, w.maxId + 1);
    hide Tiles, CoversSnapshot, AllStored;
  }

  lemma PublishedOutlivesRows(c: Complete, b: Bucket, t: Table, id: nat, row: Row)
    requires id !in t && !Between(t, id) && Published(c, b, t, Outward)
    ensures Published(c, b, t[id := row], Outward)
  {
    InsideStays(t, id, row, c.minId, c.maxId + 1);
    hide Backed;
  }

  lemma BucketOutlivesOutward(b: Bucket, t: Table, id: nat, row: Row)
    requires id !in t && !Between(t, id) && BucketOk(b, t, Outward)
    ensures BucketOk(b, t[id := row], Outward)
  {
    forall k | k in b ensures ObjectOk(k, b, t[id := row], Outward) {
      assert ObjectOk(k, b, t, Outward);
      if k.DataKey? { InsideStays(t, id, row, k.idStart, k.idEnd); }
      if k.CompleteKey? { PublishedOutlivesRows(b[k].complete, b, t, id, row); }
    }
  }

  lemma RunOutlivesOutward(r: Run, b: Bucket, t: Table, id: nat, row: Row)
    requires id !in t && !Between(t, id) && RunOk(r, b, t, Outward)
    ensures RunOk(r, b, t[id := row], Outward)
  {
    var w := r.work;
    if Progress(w, b, t, Outward) { ProgressOutlivesRows(w, b, t, id, row); }
    if r.pc.PutComplete? { PublishedOutlivesRows(r.pc.complete, b, t, id, row); }
    if r.pc.Finished? { PublishedOutlivesRows(r.pc.result, b, t, id, row); }
    if (r.pc.PutData? || r.pc.PutManifest?) && Exported(w, r.pc.rows, t, Outward) {
      InsideStays(t, id, row, w.next, ChunkEnd(w));
    }
    hide Progress, Published, Submap, Range, Inside;
  }

  lemma AddOutwardKeeps(s: System, id: nat, row: Row)
    requires Inv(s, Outward) && id !in s.table && !Between(s.table, id)
    ensures Inv(Step(s, AddRow(id, row)), Outward)
  {
    BucketOutlivesOutward(s.bucket, s.table, id, row);
    forall i | i in s.runs ensures RunOk(s.runs[i], s.bucket, s.table[id := row], Outward) {
      RunOutlivesOutward(s.runs[i], s.bucket, s.table, id, row);
    }
    hide RunOk, BucketOk;
  }

  lemma DoKeeps(s: System, i: nat, env: Env, mode: Mode)
    requires !mode.Unrestricted? && Inv(s, mode) && i in s.runs
    ensures Inv(Step(s, Do(i, env)), mode)
    ensures Keeps(s.bucket, Step(s, Do(i, env)).bucket)
    ensures mode.Serial? && CompleteKey in s.bucket ==> Step(s, Do(i, env)).bucket[CompleteKey] == s.bucket[CompleteKey]
  {
    hide BucketOk, RunOk, Advance;
    var (r, b) := Advance(s.runs[i], s.table, s.bucket, env);
    AdvanceKeeps(s.runs[i], s.table, s.bucket, env, mode);
    RestsWhenDone(s.runs[i], s.table, s.bucket, env);
    forall j | j in s.runs && j != i ensures RunOk(s.runs[j], b, s.table, mode) {
      if Pinned(mode) || !Live(s.runs[j]) {
        RunUndisturbed(s.runs[j], s.bucket, b, s.table, mode);
      }
    }
  }

  lemma RestsWhenDone(r: Run, t: Table, b: Bucket, env: Env)
    ensures !Live(r) ==> Advance(r, t, b, env) == (r, b)
  {
  }

  /** The invariant and everything stored survive a whole execution. */
  lemma {:induction false} ExecKeeps(s: System, actions: seq<Action>, mode: Mode)
    requires !mode.Unrestricted? && Inv(s, mode) && Runs(s, actions, mode)
    ensures Inv(Exec(s, actions, mode), mode)
    ensures Keeps(s.bucket, Exec(s, actions, mode).bucket)
    ensures mode.Serial? && CompleteKey in s.bucket
            ==> Exec(s, actions, mode).bucket[CompleteKey] == s.bucket[CompleteKey]
    ensures mode.Frozen? ==> Exec(s, actions, mode).table == s.table
    decreases |actions|
  {
    hide Inv, Step;
    if actions != [] {
      StepKeeps(s, actions[0], mode);
      TableStays(s, actions[0], mode);
      ExecKeeps(Step(s, actions[0]), actions[1..], mode);
    }
  }

  lemma TableStays(s: System, a: Action, mode: Mode)
    requires Allowed(s, a, mode)
    ensures mode.Frozen? ==> Step(s, a).table == s.table
  {
  }

  lemma Reachable(t: Table, actions: seq<Action>, mode: Mode)
    requires !mode.Unrestricted? && Runs(Fresh(t), actions, mode)
    ensures Inv(Exec(Fresh(t), actions, mode), mode)
  {
    assert Inv(Fresh(t), mode);
    hide Inv, Runs, Exec;
    ExecKeeps(Fresh(t), actions, mode);
  }

  /**
   * While rows arrive only below or above the ids that are there, whatever runs overlap, and while runs never overlap,
   * whatever rows arrive: a stored manifest describes the data stored beside it.
   */
  lemma ManifestsMatchData(t: Table, actions: seq<Action>, mode: Mode, idStart: nat, idEnd: nat)
    requires !mode.Unrestricted? && Runs(Fresh(t), actions, mode)
    ensures var b := Exec(Fresh(t), actions, mode).bucket;
            ManifestKey(idStart, idEnd) in b ==>
              DataKey(idStart, idEnd) in b && b[ManifestKey(idStart, idEnd)].ManifestFile?
              && b[ManifestKey(idStart, idEnd)].manifest.sha == Sha256(b[DataKey(idStart, idEnd)])
  {
    var s := Exec(Fresh(t), actions, mode);
    Reachable(t, actions, mode);
    hide Runs, Exec;
    if ManifestKey(idStart, idEnd) in s.bucket {
      assert ObjectOk(ManifestKey(idStart, idEnd), s.bucket, s.table, mode);
    }
  }

  /** Index of the one chunk whose range holds an id. */
  lemma {:induction false} TilesLocate(chunks: seq<Chunk>, lo: nat, hi: nat, id: nat) returns (i: nat)
    requires Tiles(chunks, lo, hi) && lo <= id < hi
    ensures i < |chunks| && chunks[i].idStart <= id < chunks[i].idEnd
    ensures forall j :: 0 <= j < |chunks| && chunks[j].idStart <= id < chunks[j].idEnd ==> j == i
  {
    var rest, c := Init(chunks), Last(chunks);
    if id >= c.idStart {
      i := |chunks| - 1;
      TilesBelow(rest, lo, c.idStart);
      forall j | 0 <= j < i ensures chunks[j].idEnd <= c.idStart { assert rest[j] == chunks[j]; }
    } else {
      i := TilesLocate(rest, lo, c.idStart, id);
      assert chunks[i] == rest[i];
      forall j | 0 <= j < |rest| && chunks[j].idStart <= id < chunks[j].idEnd
        ensures j == i
      {
        assert rest[j] == chunks[j];
      }
    }
  }

  lemma {:induction false} TilesBelow(chunks: seq<Chunk>, lo: nat, hi: nat)
    requires Tiles(chunks, lo, hi)
    ensures lo <= hi && forall j :: 0 <= j < |chunks| ==> lo <= chunks[j].idStart < chunks[j].idEnd <= hi
  {
    if chunks != [] {
      var rest := Init(chunks);
      TilesBelow(rest, lo, Last(chunks).idStart);
      forall j | 0 <= j < |chunks| ensures lo <= chunks[j].idStart < chunks[j].idEnd <= hi {
        if j < |rest| { assert rest[j] == chunks[j]; }
      }
    }
  }

  function DataOf(c: Chunk, b: Bucket): Table
    requires DataKey(c.idStart, c.idEnd) in b && b[DataKey(c.idStart, c.idEnd)].DataFile?
  {
    b[DataKey(c.idStart, c.idEnd)].rows
  }

  /** A listed chunk is stored with its manifest and holds exactly the rows of its range. */
  ghost predicate HoldsRange(c: Chunk, b: Bucket, t: Table) {
    ChunkStored(c, b) && DataOf(c, b) == Range(t, c.idStart, c.idEnd)
  }

  /** On a pinned table every stored chunk holds its range of the table. */
  lemma ChunksHold(chunks: seq<Chunk>, b: Bucket, t: Table, mode: Mode)
    requires Pinned(mode) && BucketOk(b, t, mode) && AllStored(chunks, b)
    ensures forall j :: 0 <= j < |chunks| ==> HoldsRange(chunks[j], b, t)
  {
    hide BucketOk;
    forall j | 0 <= j < |chunks| ensures HoldsRange(chunks[j], b, t) {
      assert ChunkStored(chunks[j], b);
      StoredChunk(b, chunks[j].idStart, chunks[j].idEnd, t, mode);
    }
  }

  /**
   * On a pinned table, whatever runs overlapped or were killed: a stored COMPLETE.json tiles an interval between two
   * ids of the table, each listed chunk is stored with the listed digest, and each row of the interval is in exactly
   * one chunk. On a frozen table the interval is the whole table.
   */
  lemma CompleteHoldsEveryRow(t: Table, actions: seq<Action>, mode: Mode, id: nat) returns (i: nat)
    requires Pinned(mode) && Runs(Fresh(t), actions, mode) && CompleteKey in Exec(Fresh(t), actions, mode).bucket
    ensures var s := Exec(Fresh(t), actions, mode);
            s.bucket[CompleteKey].CompleteFile?
            && var c := s.bucket[CompleteKey].complete;
            && Archives(c, s.bucket, s.table)
            && (id in s.table && c.minId <= id <= c.maxId ==> OnlyIn(c.chunks, s.bucket, s.table, id, i))
            && (mode.Frozen? ==> s.table == t && Bounds(t, c.minId, c.maxId) && c.snapshotCount == |t|)
  {
    var s := Exec(Fresh(t), actions, mode);
    Reachable(t, actions, mode);
    if mode.Frozen? { FrozenTable(t, actions); }
    hide Runs, Exec, Tiles, RowsIn, Archives, OnlyIn;
    CompleteReadable(s.bucket, s.table, mode);
    i := PublishedArchives(s.bucket[CompleteKey].complete, s.bucket, s.table, mode, id);
  }

  /** The chunks tile an interval between two ids of the table and hold its rows. */
  ghost predicate Archives(c: Complete, b: Bucket, t: Table) {
    && Tiles(c.chunks, c.minId, c.maxId + 1) && c.minId in t && c.maxId in t
    && c.snapshotCount == |Range(t, c.minId, c.maxId + 1)| == RowsIn(c.chunks)
    && (forall j :: 0 <= j < |c.chunks| ==> HoldsRange(c.chunks[j], b, t))
  }

  /** Chunk i holds the row as it is in the table, and no other chunk has it. */
  ghost predicate OnlyIn(chunks: seq<Chunk>, b: Bucket, t: Table, id: nat, i: nat)
  {
    && i < |chunks| && HoldsRange(chunks[i], b, t)
    && id in t && id in DataOf(chunks[i], b) && DataOf(chunks[i], b)[id] == t[id]
    && (forall j :: 0 <= j < |chunks| && HoldsRange(chunks[j], b, t) && id in DataOf(chunks[j], b) ==> j == i)
  }

  lemma PublishedArchives(c: Complete, b: Bucket, t: Table, mode: Mode, id: nat) returns (i: nat)
    requires Pinned(mode) && BucketOk(b, t, mode) && Published(c, b, t, mode)
    ensures Archives(c, b, t)
    ensures id in t && c.minId <= id <= c.maxId ==> OnlyIn(c.chunks, b, t, id, i)
    ensures mode.Frozen? ==> Bounds(t, c.minId, c.maxId) && c.snapshotCount == |t|
  {
    hide Tiles, RowsIn, BucketOk;
    i := 0;
    ChunksHold(c.chunks, b, t, mode);
    if mode.Frozen? { RangeAll(t, c.minId, c.maxId); }
    if id in t && c.minId <= id <= c.maxId { i := TilesLocate(c.chunks, c.minId, c.maxId + 1, id); }
  }

  lemma FrozenTable(t: Table, actions: seq<Action>)
    requires Runs(Fresh(t), actions, Frozen)
    ensures Exec(Fresh(t), actions, Frozen).table == t
  {
    assert Inv(Fresh(t), Frozen);
    hide Inv, Runs, Exec;
    ExecKeeps(Fresh(t), actions, Frozen);
  }

  /**
   * Runs that do not overlap, rows still arriving: COMPLETE.json is still a tiling of stored, counted, matching chunks.
   */
  lemma SerialCompleteIsBacked(t: Table, actions: seq<Action>)
    requires Runs(Fresh(t), actions, Serial) && CompleteKey in Exec(Fresh(t), actions, Serial).bucket
    ensures var b := Exec(Fresh(t), actions, Serial).bucket;
            b[CompleteKey].CompleteFile? && Backed(b[CompleteKey].complete, b)
  {
    var s := Exec(Fresh(t), actions, Serial);
    Reachable(t, actions, Serial);
    hide Runs, Exec, Backed;
    assert ObjectOk(CompleteKey, s.bucket, s.table, Serial);
  }

  /**
   * Continuing an execution never changes a stored data file or manifest, nor COMPLETE.json while runs do not overlap.
   */
  lemma PutOnceIsForever(t: Table, before: seq<Action>, after: seq<Action>, mode: Mode, k: Key)
    requires !mode.Unrestricted? && Runs(Fresh(t), before, mode)
             && Runs(Exec(Fresh(t), before, mode), after, mode)
    requires k in Exec(Fresh(t), before, mode).bucket && (k != CompleteKey || mode.Serial?)
    ensures var s := Exec(Fresh(t), before, mode);
            k in Exec(s, after, mode).bucket && Exec(s, after, mode).bucket[k] == s.bucket[k]
  {
    Reachable(t, before, mode);
    hide Inv, Runs, Exec;
    ExecKeeps(Exec(Fresh(t), before, mode), after, mode);
  }

  /**
   * On a pinned table no run fails for anything it finds in the bucket, other than an overlapping run's COMPLETE.json.
   */
  lemma RunsFailOnlyAtTheEnds(t: Table, actions: seq<Action>, mode: Mode, i: nat)
    requires Pinned(mode) && Runs(Fresh(t), actions, mode)
    requires var s := Exec(Fresh(t), actions, mode); i in s.runs && s.runs[i].pc.Failed?
    ensures Exec(Fresh(t), actions, mode).runs[i].pc.why in {EmptyTable, NotFrozen, CompleteMismatch}
  {
    Reachable(t, actions, mode);
    hide Runs, Exec, BucketOk;
  }

  // --- the row count check ---------------------------------------------------------------------

  lemma SubmapCount(a: Table, b: Table)
    requires Submap(a, b)
    ensures |a| <= |b| && (|a| == |b| <==> a == b)
  {
    assert b.Keys == a.Keys + (b.Keys - a.Keys);
    assert |a.Keys| == |a| && |b.Keys| == |b|;
    if |a| == |b| {
      assert |b.Keys - a.Keys| == 0;
      assert b.Keys == a.Keys;
    }
  }

  ghost predicate CoversRange(archived: Table, snapshot: Table, c: Chunk) {
    Submap(Range(snapshot, c.idStart, c.idEnd), archived) && c.rowCount == |archived|
  }

  /**
   * `archived[i]` is what chunk i was exported as. If rows were only added since the snapshot, the check
   * archived_rows == count passes exactly when every chunk is the snapshot's range.
   */
  lemma {:induction false} CountCheckIsExact(chunks: seq<Chunk>, archived: seq<Table>, lo: nat, hi: nat,
                                             snapshot: Table)
    requires Tiles(chunks, lo, hi) && |archived| == |chunks|
    requires forall i :: 0 <= i < |chunks| ==> CoversRange(archived[i], snapshot, chunks[i])
    ensures RowsIn(chunks) >= |Range(snapshot, lo, hi)|
    ensures RowsIn(chunks) == |Range(snapshot, lo, hi)| <==>
            forall i :: 0 <= i < |chunks| ==> archived[i] == Range(snapshot, chunks[i].idStart, chunks[i].idEnd)
  {
    hide Range, Submap, Tiles, RowsIn;
    if chunks == [] {
      NoChunks(lo, hi, snapshot);
    } else {
      var n, c := |chunks| - 1, Last(chunks);
      var rest, before := Init(chunks), Init(archived);
      assert forall i :: 0 <= i < n ==> CoversRange(before[i], snapshot, rest[i]);
      assert CoversRange(archived[n], snapshot, chunks[n]);
      LastChunk(chunks, lo, hi, snapshot);
      CountCheckIsExact(rest, before, lo, c.idStart, snapshot);
      SubmapCount(Range(snapshot, c.idStart, c.idEnd), archived[n]);
      assert forall i :: 0 <= i < n ==> before[i] == archived[i] && rest[i] == chunks[i];
      if RowsIn(chunks) == |Range(snapshot, lo, hi)| {
        forall i | 0 <= i < |chunks| ensures archived[i] == Range(snapshot, chunks[i].idStart, chunks[i].idEnd) {
          if i < n { assert before[i] == archived[i]; }
        }
      }
    }
  }

  lemma NoChunks(lo: nat, hi: nat, t: Table)
    requires Tiles([], lo, hi)
    ensures RowsIn([]) == 0 == |Range(t, lo, hi)|
  {
    assert Range(t, lo, hi) == map[];
  }

  lemma LastChunk(chunks: seq<Chunk>, lo: nat, hi: nat, t: Table)
    requires chunks != [] && Tiles(chunks, lo, hi)
    ensures Tiles(Init(chunks), lo, Last(chunks).idStart)
            && RowsIn(chunks) == RowsIn(Init(chunks)) + Last(chunks).rowCount
    ensures |Range(t, lo, hi)| == |Range(t, lo, Last(chunks).idStart)|
            + |Range(t, Last(chunks).idStart, Last(chunks).idEnd)|
  {
    TilesOrdered(Init(chunks), lo, Last(chunks).idStart);
    RangeSplit(t, lo, Last(chunks).idStart, hi);
  }

  /** The run has passed the row count check: it is about to publish, or has published, what it archived. */
  predicate PastCheck(r: Run) {
    r.pc.PutComplete? || (r.pc.Finished? && r.work.chunks != [])
  }

  /** All its chunks are the snapshot's rows of their ranges. */
  ghost predicate HoldsSnapshot(w: Work, b: Bucket) {
    forall j :: 0 <= j < |w.chunks| ==> HoldsRange(w.chunks[j], b, w.snapshot)
  }

  /** The chunks that were found stored hold at least the snapshot's rows of their ranges. */
  ghost predicate ResumedCover(w: Work, b: Bucket) {
    forall j :: 0 <= j < |w.chunks| && j in w.resumed ==>
      ChunkStored(w.chunks[j], b) && Covers(w.chunks[j], b, w.snapshot)
  }

  /**
   * A run that passed the check has archived its snapshot exactly, even while rows were being added, exactly when every
   * chunk it resumed covers the snapshot's rows of its range; so it has when it resumed none, and always on a pinned
   * table. What a finished run returns lists these chunks, and while runs do not overlap it is what COMPLETE.json holds
   * from then on.
   */
  lemma CheckedRunHoldsItsSnapshot(t: Table, actions: seq<Action>, mode: Mode, i: nat)
    requires !mode.Unrestricted? && Runs(Fresh(t), actions, mode)
    requires var s := Exec(Fresh(t), actions, mode); i in s.runs && PastCheck(s.runs[i])
    ensures var s := Exec(Fresh(t), actions, mode);
            var r := s.runs[i];
            && (HoldsSnapshot(r.work, s.bucket) <==> ResumedCover(r.work, s.bucket))
            && (r.work.resumed == {} || Pinned(mode) ==> HoldsSnapshot(r.work, s.bucket))
            && (r.pc.Finished? ==> r.pc.result.chunks == r.work.chunks)
            && (r.pc.Finished? && mode.Serial?
                ==> CompleteKey in s.bucket && s.bucket[CompleteKey] == CompleteFile(r.pc.result))
  {
    var s := Exec(Fresh(t), actions, mode);
    Reachable(t, actions, mode);
    assert RunOk(s.runs[i], s.bucket, s.table, mode);
    assert Publishing(s.runs[i].work, if s.runs[i].pc.Finished? then s.runs[i].pc.result else s.runs[i].pc.complete,
                      s.bucket, s.table, mode);
    hide Runs, Exec, BucketOk, Progress, Published, RowsIn, HoldsSnapshot, ResumedCover;
    CheckedWork(s.runs[i].work, s.bucket, s.table, mode);
    if Pinned(mode) { PinnedWork(s.runs[i].work, s.bucket, s.table, mode); }
  }

  lemma CheckedWork(w: Work, b: Bucket, t: Table, mode: Mode)
    requires Progress(w, b, t, mode) && Counted(w)
    ensures HoldsSnapshot(w, b) <==> ResumedCover(w, b)
    ensures w.resumed == {} ==> ResumedCover(w, b)
  {
    hide Tiles, RowsIn, Range, Submap, Bounds;
    assert forall k :: 0 <= k < |w.chunks| ==> ChunkStored(w.chunks[k], b);
    if ResumedCover(w, b) {
      var archived := seq(|w.chunks|, k requires 0 <= k < |w.chunks| => DataOf(w.chunks[k], b));
      forall k | 0 <= k < |w.chunks| ensures CoversRange(archived[k], w.snapshot, w.chunks[k]) {
        assert ChunkStored(w.chunks[k], b) && Covers(w.chunks[k], b, w.snapshot);
      }
      CountCheckIsExact(w.chunks, archived, w.minId, w.maxId + 1, w.snapshot);
      RangeAll(w.snapshot, w.minId, w.maxId);
      forall k | 0 <= k < |w.chunks| ensures HoldsRange(w.chunks[k], b, w.snapshot) {
        assert archived[k] == DataOf(w.chunks[k], b);
      }
    }
    if HoldsSnapshot(w, b) {
      forall k | 0 <= k < |w.chunks| ensures ChunkStored(w.chunks[k], b) && Covers(w.chunks[k], b, w.snapshot) {
        assert HoldsRange(w.chunks[k], b, w.snapshot);
        SubmapSelf(DataOf(w.chunks[k], b));
      }
    }
  }

  /** On a pinned table a run's chunks are its snapshot's ranges, whether it resumed them or not. */
  lemma PinnedWork(w: Work, b: Bucket, t: Table, mode: Mode)
    requires Pinned(mode) && BucketOk(b, t, mode) && Progress(w, b, t, mode)
    ensures HoldsSnapshot(w, b)
  {
    ChunksHold(w.chunks, b, t, mode);
    TilesBelow(w.chunks, w.minId, w.next);
    hide BucketOk, Tiles, CoversSnapshot;
    forall j | 0 <= j < |w.chunks| ensures HoldsRange(w.chunks[j], b, w.snapshot) {
      var c := w.chunks[j];
      assert HoldsRange(c, b, t);
      assert Range(w.snapshot, c.idStart, c.idEnd) == Range(t, c.idStart, c.idEnd);
    }
  }

  lemma SubmapSelf(a: Table)
    ensures Submap(a, a)
  {
  }
}
