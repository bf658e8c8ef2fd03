// What every step keeps: the invariant of bucket and runs, and its preservation by each operation.
module ArchiveInvariant {
  import opened Prelude
  import opened ArchiveProtocol

  // --- the invariant ---------------------------------------------------------------------------

  ghost predicate Submap(a: Table, b: Table) {
    forall id :: id in a ==> id in b && b[id] == a[id]
  }

  /** The disciplines under which no row ever appears between two others. */
  ghost predicate Pinned(mode: Mode) {
    mode.Frozen? || mode.Outward?
  }

  /** The range lies within the ids of the table, where a pinned table never changes. */
  ghost predicate Inside(t: Table, idStart: nat, idEnd: nat) {
    exists a, b :: a in t && b in t && a <= idStart && idEnd <= b + 1
  }

  /** Exported rows against the table: equal on a pinned table, otherwise rows the table still has. */
  ghost predicate Fits(rows: Table, t: Table, idStart: nat, idEnd: nat, mode: Mode) {
    if Pinned(mode) then rows == Range(t, idStart, idEnd) && Inside(t, idStart, idEnd)
    else Submap(rows, Range(t, idStart, idEnd))
  }

  /** A manifest is stored together with the very data it describes. */
  ghost predicate Paired(b: Bucket, idStart: nat, idEnd: nat) {
    var dataKey, manifestKey := DataKey(idStart, idEnd), ManifestKey(idStart, idEnd);
    dataKey in b && b[dataKey].DataFile? && manifestKey in b
    && b[manifestKey] == ManifestFile(ManifestOf(idStart, idEnd, b[dataKey].rows))
  }

  ghost predicate ChunkStored(c: Chunk, b: Bucket) {
    Paired(b, c.idStart, c.idEnd) && c.sha == Sha256(b[DataKey(c.idStart, c.idEnd)])
    && c.rowCount == |b[DataKey(c.idStart, c.idEnd)].rows|
  }

  ghost predicate AllStored(chunks: seq<Chunk>, b: Bucket) {
    forall i :: 0 <= i < |chunks| ==> ChunkStored(chunks[i], b)
  }

  /** The chunks are non-empty ranges that meet end to end from lo to hi. */
  ghost predicate Tiles(chunks: seq<Chunk>, lo: nat, hi: nat) {
    if chunks == [] then lo == hi
    else Last(chunks).idStart < Last(chunks).idEnd == hi && Tiles(Init(chunks), lo, Last(chunks).idStart)
  }

  ghost predicate Backed(c: Complete, b: Bucket) {
    Tiles(c.chunks, c.minId, c.maxId + 1) && RowsIn(c.chunks) == c.snapshotCount && AllStored(c.chunks, b)
  }

  ghost predicate Bounds(t: Table, lo: nat, hi: nat) {
    lo in t && hi in t && forall id :: id in t ==> lo <= id <= hi
  }

  ghost predicate Published(c: Complete, b: Bucket, t: Table, mode: Mode) {
    && Backed(c, b)
    && (Pinned(mode) ==> c.minId in t && c.maxId in t && c.snapshotCount == |Range(t, c.minId, c.maxId + 1)|)
    && (mode.Frozen? ==> Bounds(t, c.minId, c.maxId))
  }

  ghost predicate ObjectOk(k: Key, b: Bucket, t: Table, mode: Mode)
    requires k in b
  {
    match k
    case DataKey(idStart, idEnd) => b[k].DataFile? && Fits(b[k].rows, t, idStart, idEnd, mode)
    case ManifestKey(idStart, idEnd) => Paired(b, idStart, idEnd)
    case CompleteKey => b[k].CompleteFile? && Published(b[k].complete, b, t, mode)
  }

  ghost predicate BucketOk(b: Bucket, t: Table, mode: Mode) {
    forall k :: k in b ==> ObjectOk(k, b, t, mode)
  }

  /** A stored chunk holds at least the snapshot's rows of its range. */
  ghost predicate Covers(c: Chunk, b: Bucket, snapshot: Table)
    requires ChunkStored(c, b)
  {
    Submap(Range(snapshot, c.idStart, c.idEnd), b[DataKey(c.idStart, c.idEnd)].rows)
  }

  /** Every chunk that was not resumed does. */
  ghost predicate CoversSnapshot(chunks: seq<Chunk>, b: Bucket, snapshot: Table, resumed: set<nat>)
    requires AllStored(chunks, b)
  {
    forall i :: 0 <= i < |chunks| && i !in resumed ==> Covers(chunks[i], b, snapshot)
  }

  /** What holds from the snapshot on, whatever the run does next. */
  ghost predicate Progress(w: Work, b: Bucket, t: Table, mode: Mode) {
    && w.chunkRows > 0 && Bounds(w.snapshot, w.minId, w.maxId) && w.minId <= w.next <= w.maxId + 1
    && (if Pinned(mode) then w.snapshot == Range(t, w.minId, w.maxId + 1) else Submap(w.snapshot, t))
    && (mode.Frozen? ==> w.snapshot == t)
    && Tiles(w.chunks, w.minId, w.next) && AllStored(w.chunks, b)
    && CoversSnapshot(w.chunks, b, w.snapshot, w.resumed)
  }

  ghost predicate Exported(w: Work, rows: Table, t: Table, mode: Mode) {
    w.next <= w.maxId && Fits(rows, t, w.next, ChunkEnd(w), mode)
    && Submap(Range(w.snapshot, w.next, ChunkEnd(w)), rows)
  }

  /** The row count check was passed. */
  ghost predicate Counted(w: Work) {
    w.next == w.maxId + 1 && RowsIn(w.chunks) == |w.snapshot|
  }

  /** The run is on its way to publish what it archived, or has done so. */
  ghost predicate Publishing(w: Work, c: Complete, b: Bucket, t: Table, mode: Mode) {
    Progress(w, b, t, mode) && Published(c, b, t, mode) && c.chunks == w.chunks && Counted(w)
  }

  ghost predicate RunOk(r: Run, b: Bucket, t: Table, mode: Mode) {
    var w := r.work;
    var dataKey, manifestKey := DataKey(w.next, ChunkEnd(w)), ManifestKey(w.next, ChunkEnd(w));
    w.chunkRows > 0 &&
    match r.pc
    case CheckComplete => w.chunks == []
    case ReadComplete => CompleteKey in b && w.chunks == []
    case TakeSnapshot => true
    case CheckManifest => Progress(w, b, t, mode) && w.next <= w.maxId
    case ReadManifest => Progress(w, b, t, mode) && w.next <= w.maxId && manifestKey in b
    case CompareData(m) => Progress(w, b, t, mode) && w.next <= w.maxId && manifestKey in b
        && b[manifestKey] == ManifestFile(m)
    case Export => Progress(w, b, t, mode) && w.next <= w.maxId
    case PutData(phase, rows) => Progress(w, b, t, mode) && Exported(w, rows, t, mode)
        && (phase.Send? && dataKey in b ==> b[dataKey] == DataFile(rows))
        && (phase.ReadBack? ==> dataKey in b)
    case PutManifest(phase, rows) => Progress(w, b, t, mode) && Exported(w, rows, t, mode)
        && dataKey in b && b[dataKey] == DataFile(rows)
        && (phase.ReadBack? ==> manifestKey in b)
    case PutComplete(phase, c) => Publishing(w, c, b, t, mode)
        && (phase.Send? && mode.Serial? ==> CompleteKey !in b)
        && (phase.ReadBack? ==> CompleteKey in b)
    case Finished(c) => Published(c, b, t, mode) && CompleteKey in b
        && (mode.Serial? ==> b[CompleteKey] == CompleteFile(c))
        && (w.chunks != [] ==> Publishing(w, c, b, t, mode))
    case Failed(why) =>
      && (Pinned(mode) ==> why in {EmptyTable, NotFrozen, CompleteMismatch})
      && (why.CompleteMismatch? ==> CompleteKey in b)
  }

  ghost predicate Inv(s: System, mode: Mode) {
    && BucketOk(s.bucket, s.table, mode)
    && (forall i :: i in s.runs ==> RunOk(s.runs[i], s.bucket, s.table, mode))
    && (mode.Serial? ==> forall i, j :: i in s.runs && j in s.runs && Live(s.runs[i]) && Live(s.runs[j]) ==> i == j)
  }

  /** Data and manifests, once stored, stay as they are. */
  ghost predicate Keeps(b: Bucket, b': Bucket) {
    forall k :: k in b ==> k in b' && (k != CompleteKey ==> b'[k] == b[k])
  }

  // --- preservation ----------------------------------------------------------------------------

  lemma PublishedKept(c: Complete, b: Bucket, b': Bucket, t: Table, mode: Mode)
    requires Published(c, b, t, mode) && Keeps(b, b')
    ensures Published(c, b', t, mode)
  {
    hide Tiles, RowsIn;
    AllStoredKept(c.chunks, b, b');
  }

  lemma AllStoredKept(chunks: seq<Chunk>, b: Bucket, b': Bucket)
    requires AllStored(chunks, b) && Keeps(b, b')
    ensures AllStored(chunks, b')
  {
    forall i | 0 <= i < |chunks| ensures ChunkStored(chunks[i], b') {
      assert ChunkStored(chunks[i], b);
    }
  }

  lemma CoversKept(w: Work, b: Bucket, b': Bucket)
    requires AllStored(w.chunks, b) && CoversSnapshot(w.chunks, b, w.snapshot, w.resumed) && Keeps(b, b')
    ensures AllStored(w.chunks, b') && CoversSnapshot(w.chunks, b', w.snapshot, w.resumed)
  {
    AllStoredKept(w.chunks, b, b');
    forall i | 0 <= i < |w.chunks| && i !in w.resumed ensures Covers(w.chunks[i], b', w.snapshot) {
      assert ChunkStored(w.chunks[i], b) && Covers(w.chunks[i], b, w.snapshot);
    }
  }

  lemma ProgressKept(w: Work, b: Bucket, b': Bucket, t: Table, mode: Mode)
    requires Progress(w, b, t, mode) && Keeps(b, b')
    ensures Progress(w, b', t, mode)
  {
    hide Tiles, CoversSnapshot;
    CoversKept(w, b, b');
  }

  lemma PublishingKept(w: Work, c: Complete, b: Bucket, b': Bucket, t: Table, mode: Mode)
    requires Publishing(w, c, b, t, mode) && Keeps(b, b')
    ensures Publishing(w, c, b', t, mode)
  {
    ProgressKept(w, b, b', t, mode);
    PublishedKept(c, b, b', t, mode);
    hide Progress, Published, RowsIn;
  }

  /** A run is not disturbed by what another run stores: on a pinned table both would store the same bytes. */
  lemma RunUndisturbed(r: Run, b: Bucket, b': Bucket, t: Table, mode: Mode)
    requires RunOk(r, b, t, mode) && Keeps(b, b') && BucketOk(b', t, mode)
    requires Pinned(mode) || !Live(r)
    requires mode.Serial? && CompleteKey in b ==> CompleteKey in b' && b'[CompleteKey] == b[CompleteKey]
    ensures RunOk(r, b', t, mode)
  {
    hide Progress, Published, Publishing, Tiles, RowsIn, AllStored, Fits, Submap, Range;
    if r.pc.PutComplete? || r.pc.Finished? || r.pc.Failed? {
      EndUndisturbed(r, b, b', t, mode);
    } else {
      if Progress(r.work, b, t, mode) { ProgressKept(r.work, b, b', t, mode); }
      if r.pc.PutData? && r.pc.phase.Send? && DataKey(r.work.next, ChunkEnd(r.work)) in b' {
        SameExport(r, b', t, mode);
      }
    }
  }

  lemma SameExport(r: Run, b': Bucket, t: Table, mode: Mode)
    requires Pinned(mode) && r.pc.PutData? && Exported(r.work, r.pc.rows, t, mode) && BucketOk(b', t, mode)
    requires DataKey(r.work.next, ChunkEnd(r.work)) in b'
    ensures b'[DataKey(r.work.next, ChunkEnd(r.work))] == DataFile(r.pc.rows)
  {
    assert ObjectOk(DataKey(r.work.next, ChunkEnd(r.work)), b', t, mode);
  }

  lemma EndUndisturbed(r: Run, b: Bucket, b': Bucket, t: Table, mode: Mode)
    requires RunOk(r, b, t, mode) && Keeps(b, b') && (r.pc.PutComplete? || r.pc.Finished? || r.pc.Failed?)
    requires Pinned(mode) || !Live(r)
    requires mode.Serial? && CompleteKey in b ==> CompleteKey in b' && b'[CompleteKey] == b[CompleteKey]
    ensures RunOk(r, b', t, mode)
  {
    hide Progress, Published, Publishing;
    if r.pc.PutComplete? { PublishingKept(r.work, r.pc.complete, b, b', t, mode); }
    if r.pc.Finished? {
      PublishedKept(r.pc.result, b, b', t, mode);
      if r.work.chunks != [] { PublishingKept(r.work, r.pc.result, b, b', t, mode); }
    }
  }

  lemma BucketKept(b: Bucket, k: Key, o: Object, t: Table, mode: Mode)
    requires BucketOk(b, t, mode) && ObjectOk(k, b[k := o], t, mode)
    requires k != CompleteKey && k in b ==> b[k] == o
    ensures Keeps(b, b[k := o]) && BucketOk(b[k := o], t, mode)
  {
    var b' := b[k := o];
    hide Published, Fits;
    forall k' | k' in b' ensures ObjectOk(k', b', t, mode) {
      if k' != k {
        assert ObjectOk(k', b, t, mode);
        if k' == CompleteKey { PublishedKept(b[k'].complete, b, b', t, mode); }
      }
    }
  }

  lemma RangeSplit(t: Table, lo: nat, mid: nat, hi: nat)
    requires lo <= mid <= hi
    ensures |Range(t, lo, hi)| == |Range(t, lo, mid)| + |Range(t, mid, hi)|
  {
    var a, b, c := Range(t, lo, mid).Keys, Range(t, mid, hi).Keys, Range(t, lo, hi).Keys;
    assert a + b == c && a * b == {};
    assert |a| == |Range(t, lo, mid)| && |b| == |Range(t, mid, hi)| && |c| == |Range(t, lo, hi)|;
  }

  lemma {:induction false} TilesOrdered(chunks: seq<Chunk>, lo: nat, hi: nat)
    requires Tiles(chunks, lo, hi)
    ensures lo <= hi
  {
    if chunks != [] { TilesOrdered(Init(chunks), lo, Last(chunks).idStart); }
  }

  /** Counting over ranges that meet end to end counts the whole interval. */
  lemma {:induction false} TilesCount(chunks: seq<Chunk>, lo: nat, hi: nat, t: Table)
    requires Tiles(chunks, lo, hi)
    requires forall i :: 0 <= i < |chunks| ==> chunks[i].rowCount == |Range(t, chunks[i].idStart, chunks[i].idEnd)|
    ensures RowsIn(chunks) == |Range(t, lo, hi)|
  {
    if chunks == [] {
      assert Range(t, lo, hi) == map[];
    } else {
      var rest, c := Init(chunks), Last(chunks);
      assert chunks[|chunks| - 1] == c;
      TilesOrdered(rest, lo, c.idStart);
      TilesCount(rest, lo, c.idStart, t);
      RangeSplit(t, lo, c.idStart, c.idEnd);
    }
  }

  lemma RangeAll(t: Table, lo: nat, hi: nat)
    requires Bounds(t, lo, hi)
    ensures Range(t, lo, hi + 1) == t
  {
  }

  lemma StoredChunk(b: Bucket, idStart: nat, idEnd: nat, t: Table, mode: Mode)
    requires BucketOk(b, t, mode) && Paired(b, idStart, idEnd)
    ensures Fits(b[DataKey(idStart, idEnd)].rows, t, idStart, idEnd, mode)
  {
    assert ObjectOk(DataKey(idStart, idEnd), b, t, mode);
  }

  lemma TilesAppend(chunks: seq<Chunk>, c: Chunk, lo: nat)
    requires Tiles(chunks, lo, c.idStart) && c.idStart < c.idEnd
    ensures Tiles(chunks + [c], lo, c.idEnd) && RowsIn(chunks + [c]) == RowsIn(chunks) + c.rowCount
  {
    assert Init(chunks + [c]) == chunks;
  }

  /** A verified chunk extends the tiling. */
  lemma ExtendedProgress(w: Work, b: Bucket, t: Table, mode: Mode, uploaded: bool)
    requires Progress(w, b, t, mode) && w.next <= w.maxId && Paired(b, w.next, ChunkEnd(w))
    requires uploaded ==> Submap(Range(w.snapshot, w.next, ChunkEnd(w)), b[DataKey(w.next, ChunkEnd(w))].rows)
    ensures Progress(Extended(w, b[ManifestKey(w.next, ChunkEnd(w))].manifest, uploaded), b, t, mode)
  {
    var m := b[ManifestKey(w.next, ChunkEnd(w))].manifest;
    var c := Chunk(w.next, ChunkEnd(w), m.rowCount, m.sha);
    TilesAppend(w.chunks, c, w.minId);
    hide Tiles;
    assert ChunkStored(c, b);
  }

  /** On a pinned table the tiled chunks hold exactly the rows of the interval, so the final count always agrees. */
  lemma PinnedCount(chunks: seq<Chunk>, b: Bucket, t: Table, lo: nat, hi: nat, mode: Mode)
    requires Pinned(mode) && BucketOk(b, t, mode) && AllStored(chunks, b) && Tiles(chunks, lo, hi)
    ensures RowsIn(chunks) == |Range(t, lo, hi)|
  {
    hide Tiles, RowsIn;
    forall i | 0 <= i < |chunks| ensures chunks[i].rowCount == |Range(t, chunks[i].idStart, chunks[i].idEnd)| {
      assert ChunkStored(chunks[i], b);
      StoredChunk(b, chunks[i].idStart, chunks[i].idEnd, t, mode);
    }
    TilesCount(chunks, lo, hi, t);
  }

  lemma CollectOk(w: Work, b: Bucket, t: Table, mode: Mode, uploaded: bool, now: nat)
    requires BucketOk(b, t, mode) && Progress(w, b, t, mode) && w.next <= w.maxId && Paired(b, w.next, ChunkEnd(w))
    requires uploaded ==> Submap(Range(w.snapshot, w.next, ChunkEnd(w)), b[DataKey(w.next, ChunkEnd(w))].rows)
    ensures RunOk(LoopHead(Extended(w, b[ManifestKey(w.next, ChunkEnd(w))].manifest, uploaded), now), b, t, mode)
  {
    hide Tiles, RowsIn, AllStored, CoversSnapshot, Bounds, BucketOk;
    var w' := Extended(w, b[ManifestKey(w.next, ChunkEnd(w))].manifest, uploaded);
    ExtendedProgress(w, b, t, mode, uploaded);
    if Pinned(mode) && w'.next == w'.maxId + 1 {
      PinnedCount(w'.chunks, b, t, w.minId, w.maxId + 1, mode);
      SnapshotEnds(w, b, t, mode);
    }
  }

  /** The ends of the snapshot are in the table, and nothing of the snapshot has gone. */
  lemma SnapshotEnds(w: Work, b: Bucket, t: Table, mode: Mode)
    requires Progress(w, b, t, mode)
    ensures w.minId in t && w.maxId in t && Submap(w.snapshot, t)
    ensures mode.Frozen? ==> Bounds(t, w.minId, w.maxId)
  {
  }

  lemma RangeFits(t: Table, w: Work, idStart: nat, idEnd: nat, mode: Mode)
    requires Submap(w.snapshot, t) && w.minId in t && w.maxId in t && w.minId <= idStart && idEnd <= w.maxId + 1
    ensures Fits(Range(t, idStart, idEnd), t, idStart, idEnd, mode)
    ensures Submap(Range(w.snapshot, idStart, idEnd), Range(t, idStart, idEnd))
  {
  }

  ghost predicate Kept(r: Run, t: Table, b: Bucket, env: Env, mode: Mode) {
    Fine(Advance(r, t, b, env).0, Advance(r, t, b, env).1, b, t, mode)
  }

  /** What a step owes to the rest: nothing stored is lost or changed, and both invariants go on holding. */
  ghost predicate Fine(r': Run, b': Bucket, b: Bucket, t: Table, mode: Mode) {
    Keeps(b, b') && BucketOk(b', t, mode) && RunOk(r', b', t, mode)
    && (mode.Serial? && CompleteKey in b ==> b'[CompleteKey] == b[CompleteKey])
  }

  lemma OnlyLooked(r': Run, b: Bucket, t: Table, mode: Mode)
    requires BucketOk(b, t, mode) && RunOk(r', b, t, mode)
    ensures Fine(r', b, b, t, mode)
  {
  }

  /** One step of a run: what is stored stays true, and so does what the run relies on. */
  lemma AdvanceKeeps(r: Run, t: Table, b: Bucket, env: Env, mode: Mode)
    requires BucketOk(b, t, mode) && RunOk(r, b, t, mode)
    ensures Kept(r, t, b, env, mode)
  {
    hide Kept, RunOk, BucketOk;
    match r.pc {
      case CheckComplete => FindCompleteOk(r, t, b, env, mode);
      case ReadComplete => FindCompleteOk(r, t, b, env, mode);
      case TakeSnapshot => SnapshotOk(r, t, b, env, mode);
      case ReadManifest => ResumeOk(r, t, b, env, mode);
      case CompareData(_) => ResumeOk(r, t, b, env, mode);
      case Export => ExportOk(r, t, b, env, mode);
      case PutData(_, _) => PutDataOk(r, t, b, env, mode);
      case PutManifest(_, _) => PutManifestOk(r, t, b, env, mode);
      case PutComplete(_, _) => PutCompleteOk(r, t, b, env, mode);
      case _ => QuietOk(r, t, b, env, mode);
    }
  }

  /** Looking for the manifest of a chunk, and standing still. */
  lemma QuietOk(r: Run, t: Table, b: Bucket, env: Env, mode: Mode)
    requires BucketOk(b, t, mode) && RunOk(r, b, t, mode)
    requires r.pc.CheckManifest? || !Live(r)
    ensures Kept(r, t, b, env, mode)
  {
    hide Progress, Published, Publishing, BucketOk, Fine;
    OnlyLooked(Advance(r, t, b, env).0, b, t, mode);
  }

  /** Looking for COMPLETE.json, and reading it. */
  lemma FindCompleteOk(r: Run, t: Table, b: Bucket, env: Env, mode: Mode)
    requires BucketOk(b, t, mode) && RunOk(r, b, t, mode) && (r.pc.CheckComplete? || r.pc.ReadComplete?)
    ensures Kept(r, t, b, env, mode)
  {
    if CompleteKey in b { CompleteReadable(b, t, mode); }
    hide Progress, Published, Publishing, BucketOk, Fine;
    OnlyLooked(Advance(r, t, b, env).0, b, t, mode);
  }

  lemma CompleteReadable(b: Bucket, t: Table, mode: Mode)
    requires CompleteKey in b && BucketOk(b, t, mode)
    ensures b[CompleteKey].CompleteFile? && Published(b[CompleteKey].complete, b, t, mode)
  {
    assert ObjectOk(CompleteKey, b, t, mode);
  }

  lemma ResumeOk(r: Run, t: Table, b: Bucket, env: Env, mode: Mode)
    requires BucketOk(b, t, mode) && RunOk(r, b, t, mode) && (r.pc.CompareData? || r.pc.ReadManifest?)
    ensures Kept(r, t, b, env, mode)
  {
    assert ObjectOk(ManifestKey(r.work.next, ChunkEnd(r.work)), b, t, mode);
    hide Progress, Published, BucketOk, Fine, LoopHead;
    if r.pc.CompareData? { CollectOk(r.work, b, t, mode, false, env.now); }
    OnlyLooked(Advance(r, t, b, env).0, b, t, mode);
  }

  lemma SnapshotOk(r: Run, t: Table, b: Bucket, env: Env, mode: Mode)
    requires BucketOk(b, t, mode) && RunOk(r, b, t, mode) && r.pc.TakeSnapshot?
    ensures Kept(r, t, b, env, mode)
  {
    if |t| > 0 && Aged(t, env) {
      var lo, hi := Smallest(t.Keys), Largest(t.Keys);
      assert Bounds(t, lo, hi);
      RangeAll(t, lo, hi);
      assert lo <= hi;
    }
  }

  lemma ExportOk(r: Run, t: Table, b: Bucket, env: Env, mode: Mode)
    requires BucketOk(b, t, mode) && RunOk(r, b, t, mode) && r.pc.Export?
    ensures Kept(r, t, b, env, mode)
  {
    SnapshotEnds(r.work, b, t, mode);
    assert r.work.minId <= r.work.next && ChunkEnd(r.work) <= r.work.maxId + 1;
    hide Progress, Published, BucketOk, Fits, Submap, Range, Fine;
    RangeFits(t, r.work, r.work.next, ChunkEnd(r.work), mode);
    OnlyLooked(Advance(r, t, b, env).0, b, t, mode);
  }

  lemma PutDataOk(r: Run, t: Table, b: Bucket, env: Env, mode: Mode)
    requires BucketOk(b, t, mode) && RunOk(r, b, t, mode) && r.pc.PutData?
    ensures Kept(r, t, b, env, mode)
  {
    var dataKey, o := DataKey(r.work.next, ChunkEnd(r.work)), DataFile(r.pc.rows);
    if dataKey in b { assert ObjectOk(dataKey, b, t, mode); }
    assert r.pc.phase.ReadBack? && Pinned(mode) ==> b[dataKey] == o;
    hide Progress, Published, Publishing, BucketOk, Submap, Range, Fits, Fine, LoopHead, Extended, Kept;
    KeptIs(r, t, b, env, mode);
    if r.pc.phase.Send? {
      SendDataOk(r, t, b, mode);
    } else {
      OnlyLooked(Advance(r, t, b, env).0, b, t, mode);
    }
  }

  lemma SendDataOk(r: Run, t: Table, b: Bucket, mode: Mode)
    requires BucketOk(b, t, mode) && RunOk(r, b, t, mode) && r.pc.PutData? && r.pc.phase.Send?
    ensures Fine(r.(pc := PutData(ReadBack, r.pc.rows)),
                 b[DataKey(r.work.next, ChunkEnd(r.work)) := DataFile(r.pc.rows)], b, t, mode)
  {
    var dataKey, o := DataKey(r.work.next, ChunkEnd(r.work)), DataFile(r.pc.rows);
    BucketKept(b, dataKey, o, t, mode);
    ProgressKept(r.work, b, b[dataKey := o], t, mode);
    hide Progress, Published, BucketOk, Submap, Range, Fits;
  }

  lemma PutManifestOk(r: Run, t: Table, b: Bucket, env: Env, mode: Mode)
    requires BucketOk(b, t, mode) && RunOk(r, b, t, mode) && r.pc.PutManifest?
    ensures Kept(r, t, b, env, mode)
  {
    var manifestKey := ManifestKey(r.work.next, ChunkEnd(r.work));
    if manifestKey in b { assert ObjectOk(manifestKey, b, t, mode); }
    hide Progress, Published, Publishing, BucketOk, Submap, Range, Fits, Fine, LoopHead, Extended, Kept;
    KeptIs(r, t, b, env, mode);
    match r.pc.phase {
      case Look => OnlyLooked(Advance(r, t, b, env).0, b, t, mode);
      case Send => SendManifestOk(r, t, b, mode);
      case ReadBack =>
        CollectOk(r.work, b, t, mode, true, env.now);
        OnlyLooked(Advance(r, t, b, env).0, b, t, mode);
    }
  }

  lemma SendManifestOk(r: Run, t: Table, b: Bucket, mode: Mode)
    requires BucketOk(b, t, mode) && RunOk(r, b, t, mode) && r.pc.PutManifest? && r.pc.phase.Send?
    ensures Fine(r.(pc := PutManifest(ReadBack, r.pc.rows)),
                 b[ManifestKey(r.work.next, ChunkEnd(r.work))
                   := ManifestFile(ManifestOf(r.work.next, ChunkEnd(r.work), r.pc.rows))], b, t, mode)
  {
    var manifestKey := ManifestKey(r.work.next, ChunkEnd(r.work));
    var o := ManifestFile(ManifestOf(r.work.next, ChunkEnd(r.work), r.pc.rows));
    if manifestKey in b { assert ObjectOk(manifestKey, b, t, mode); }
    hide Progress, Published, BucketOk, Submap, Range, Fits;
    BucketKept(b, manifestKey, o, t, mode);
    ProgressKept(r.work, b, b[manifestKey := o], t, mode);
  }

  lemma PutCompleteOk(r: Run, t: Table, b: Bucket, env: Env, mode: Mode)
    requires BucketOk(b, t, mode) && RunOk(r, b, t, mode) && r.pc.PutComplete?
    ensures Kept(r, t, b, env, mode)
  {
    hide Progress, Published, Publishing, BucketOk, RunOk, Fine, RowsIn, LoopHead, Extended, Kept;
    match r.pc.phase {
      case Look => LookCompleteOk(r, t, b, env, mode);
      case Send => KeptIs(r, t, b, env, mode); SendCompleteOk(r, t, b, mode);
      case ReadBack => CheckCompleteOk(r, t, b, env, mode);
    }
  }

  lemma KeptIs(r: Run, t: Table, b: Bucket, env: Env, mode: Mode)
    ensures Kept(r, t, b, env, mode) <==> Fine(Advance(r, t, b, env).0, Advance(r, t, b, env).1, b, t, mode)
  {
  }

  lemma LookCompleteOk(r: Run, t: Table, b: Bucket, env: Env, mode: Mode)
    requires BucketOk(b, t, mode) && RunOk(r, b, t, mode) && r.pc.PutComplete? && r.pc.phase.Look?
    ensures Kept(r, t, b, env, mode)
  {
    hide Publishing, BucketOk, Fine, Progress, Published, LoopHead, Extended;
    OnlyLooked(Advance(r, t, b, env).0, b, t, mode);
  }

  lemma CheckCompleteOk(r: Run, t: Table, b: Bucket, env: Env, mode: Mode)
    requires BucketOk(b, t, mode) && RunOk(r, b, t, mode) && r.pc.PutComplete? && r.pc.phase.ReadBack?
    ensures Kept(r, t, b, env, mode)
  {
    assert Published(r.pc.complete, b, t, mode);
    hide Publishing, BucketOk, Fine, Progress, Published, LoopHead, Extended;
    OnlyLooked(Advance(r, t, b, env).0, b, t, mode);
  }

  lemma SendCompleteOk(r: Run, t: Table, b: Bucket, mode: Mode)
    requires BucketOk(b, t, mode) && RunOk(r, b, t, mode) && r.pc.PutComplete? && r.pc.phase.Send?
    ensures Fine(r.(pc := PutComplete(ReadBack, r.pc.complete)),
                 b[CompleteKey := CompleteFile(r.pc.complete)], b, t, mode)
  {
    var c := r.pc.complete;
    var b' := b[CompleteKey := CompleteFile(c)];
    assert Published(c, b, t, mode);
    hide Progress, Published, Publishing, BucketOk, RowsIn;
    PublishedKept(c, b, b', t, mode);
    BucketKept(b, CompleteKey, CompleteFile(c), t, mode);
    PublishingKept(r.work, c, b, b', t, mode);
  }
}
