// The sequential program over the bucket object, tied to the step machine's undisturbed run.
module ArchiveRun {
  import opened Prelude
  import opened ArchiveProtocol
  import opened ArchiveSolo

  // --- the sequential program ------------------------------------------------------------------

  datatype Outcome = Done(complete: Complete) | Raised(why: Why) | BadChunkRows

  ghost predicate Reports(o: Outcome, r: Run) {
    match o
    case Done(c) => r.pc == Finished(c)
    case Raised(why) => r.pc == Failed(why)
    case BadChunkRows => false
  }

  function Once(b: Bucket, k: Key, o: Object): Bucket {
    if k in b then b else b[k := o]
  }

  /** The three operations of one `put_once` of a data file, taken together. */
  lemma SoloPutData(w: Work, rows: Table, t: Table, b: Bucket, env: Env)
    requires w.chunkRows > 0 && w.next <= w.maxId
    ensures var b' := Once(b, DataKey(w.next, ChunkEnd(w)), DataFile(rows));
            Solo(Run(PutData(Look, rows), w), t, b, env)
              == if Holds(b', DataKey(w.next, ChunkEnd(w)), DataFile(rows))
                 then Solo(Run(PutManifest(Look, rows), w), t, b', env)
                 else (Run(Failed(DataMismatch), w), b')
  {
    hide Solo;
    var b' := Once(b, DataKey(w.next, ChunkEnd(w)), DataFile(rows));
    SoloStep(Run(PutData(Look, rows), w), t, b, env);
    if DataKey(w.next, ChunkEnd(w)) !in b { SoloStep(Run(PutData(Send, rows), w), t, b, env); }
    SoloStep(Run(PutData(ReadBack, rows), w), t, b', env);
    SoloStops(DataMismatch, w, t, b', env);
  }

  lemma SoloPutManifest(w: Work, rows: Table, t: Table, b: Bucket, env: Env)
    requires w.chunkRows > 0 && w.next <= w.maxId
    ensures var m := ManifestOf(w.next, ChunkEnd(w), rows);
            var b' := Once(b, ManifestKey(w.next, ChunkEnd(w)), ManifestFile(m));
            InBounds(LoopHead(Extended(w, m, true), env.now)) &&
            Solo(Run(PutManifest(Look, rows), w), t, b, env)
              == if Holds(b', ManifestKey(w.next, ChunkEnd(w)), ManifestFile(m))
                 then Solo(LoopHead(Extended(w, m, true), env.now), t, b', env)
                 else (Run(Failed(ManifestMismatch), w), b')
  {
    hide Solo, LoopHead, Extended;
    var k, o := ManifestKey(w.next, ChunkEnd(w)), ManifestFile(ManifestOf(w.next, ChunkEnd(w), rows));
    var b' := Once(b, k, o);
    CollectDescends(Run(CheckManifest, w), ManifestOf(w.next, ChunkEnd(w), rows), true, env.now);
    SoloStep(Run(PutManifest(Look, rows), w), t, b, env);
    if k !in b { SoloStep(Run(PutManifest(Send, rows), w), t, b, env); }
    SoloStep(Run(PutManifest(ReadBack, rows), w), t, b', env);
    SoloStops(ManifestMismatch, w, t, b', env);
  }

  lemma SoloPutComplete(c: Complete, w: Work, t: Table, b: Bucket, env: Env)
    requires w.chunkRows > 0
    ensures var b' := Once(b, CompleteKey, CompleteFile(c));
            Solo(Run(PutComplete(Look, c), w), t, b, env)
              == if Holds(b', CompleteKey, CompleteFile(c)) then (Run(Finished(c), w), b')
                 else (Run(Failed(CompleteMismatch), w), b')
  {
    var b' := Once(b, CompleteKey, CompleteFile(c));
    SoloStops(CompleteMismatch, w, t, b', env);
    SoloEnds(c, w, t, b', env);
    hide Solo;
    SoloStep(Run(PutComplete(Look, c), w), t, b, env);
    if CompleteKey !in b { SoloStep(Run(PutComplete(Send, c), w), t, b, env); }
    SoloStep(Run(PutComplete(ReadBack, c), w), t, b', env);
  }

  /** A chunk whose manifest is already stored. */
  function Resumed(w: Work, b: Bucket): Option<Why>
    requires ManifestKey(w.next, ChunkEnd(w)) in b
  {
    var o := b[ManifestKey(w.next, ChunkEnd(w))];
    if !o.ManifestFile? then Some(StoredMismatch)
    else if (o.manifest.idStart, o.manifest.idEnd) != (w.next, ChunkEnd(w)) then Some(WrongRange)
    else if DataKey(w.next, ChunkEnd(w)) in b && Sha256(b[DataKey(w.next, ChunkEnd(w))]) == o.manifest.sha then None
    else Some(StoredMismatch)
  }

  lemma SoloResume(w: Work, t: Table, b: Bucket, env: Env)
    requires w.chunkRows > 0 && w.next <= w.maxId && ManifestKey(w.next, ChunkEnd(w)) in b
    ensures var failure := Resumed(w, b);
            if failure.Some? then Solo(Run(CheckManifest, w), t, b, env) == (Run(Failed(failure.value), w), b)
            else
              var m := b[ManifestKey(w.next, ChunkEnd(w))].manifest;
              InBounds(LoopHead(Extended(w, m, false), env.now)) &&
              Solo(Run(CheckManifest, w), t, b, env) == Solo(LoopHead(Extended(w, m, false), env.now), t, b, env)
  {
    hide Solo, LoopHead, Extended;
    var o := b[ManifestKey(w.next, ChunkEnd(w))];
    SoloStep(Run(CheckManifest, w), t, b, env);
    SoloStep(Run(ReadManifest, w), t, b, env);
    SoloStops(WrongRange, w, t, b, env);
    SoloStops(StoredMismatch, w, t, b, env);
    if o.ManifestFile? && (o.manifest.idStart, o.manifest.idEnd) == (w.next, ChunkEnd(w)) {
      SoloStep(Run(CompareData(o.manifest), w), t, b, env);
      CollectDescends(Run(CheckManifest, w), o.manifest, false, env.now);
    }
  }

  lemma SoloExport(w: Work, t: Table, b: Bucket, env: Env)
    requires w.chunkRows > 0 && w.next <= w.maxId && ManifestKey(w.next, ChunkEnd(w)) !in b
    ensures Solo(Run(CheckManifest, w), t, b, env)
            == Solo(Run(PutData(Look, Range(t, w.next, ChunkEnd(w))), w), t, b, env)
  {
    hide Solo;
    SoloStep(Run(CheckManifest, w), t, b, env);
    SoloStep(Run(Export, w), t, b, env);
  }

  /** Everything up to the first chunk. */
  lemma SoloStart(chunkRows: nat, t: Table, b: Bucket, env: Env)
    requires chunkRows > 0
    ensures var w := NewRun(chunkRows).work;
            var lo, hi := if |t| > 0 then Smallest(t.Keys) else 0, if |t| > 0 then Largest(t.Keys) else 0;
            var begun := Work(chunkRows, t, lo, hi, lo, [], {});
            if CompleteKey in b then Solo(NewRun(chunkRows), t, b, env) == (Run(Stored(b), w), b)
            else if |t| == 0 then Solo(NewRun(chunkRows), t, b, env) == (Run(Failed(EmptyTable), w), b)
            else if !Aged(t, env) then Solo(NewRun(chunkRows), t, b, env) == (Run(Failed(NotFrozen), w), b)
            else
              InBounds(LoopHead(begun, env.now)) &&
              Solo(NewRun(chunkRows), t, b, env) == Solo(LoopHead(begun, env.now), t, b, env)
  {
    var w := NewRun(chunkRows).work;
    SoloStops(EmptyTable, w, t, b, env);
    SoloStops(NotFrozen, w, t, b, env);
    SoloStops(StoredMismatch, w, t, b, env);
    if CompleteKey in b && b[CompleteKey].CompleteFile? { SoloEnds(b[CompleteKey].complete, w, t, b, env); }
    hide Solo, RowsIn;
    SoloStep(NewRun(chunkRows), t, b, env);
    if CompleteKey in b {
      SoloStep(Run(ReadComplete, w), t, b, env);
    } else {
      SoloStep(Run(TakeSnapshot, w), t, b, env);
      if |t| > 0 { LoopStarts(Run(TakeSnapshot, w), t, env.now); }
    }
  }

  lemma SoloEnds(c: Complete, w: Work, t: Table, b: Bucket, env: Env)
    requires w.chunkRows > 0
    ensures Solo(Run(Finished(c), w), t, b, env) == (Run(Finished(c), w), b)
  {
  }

  lemma SoloStops(why: Why, w: Work, t: Table, b: Bucket, env: Env)
    requires w.chunkRows > 0
    ensures Solo(Run(Failed(why), w), t, b, env) == (Run(Failed(why), w), b)
  {
  }

  /** COMPLETE.json states the snapshot, the chunk size and the time. */
  predicate Closes(c: Complete, rows: nat, minId: nat, maxId: nat, chunkRows: nat, now: nat) {
    c.snapshotCount == rows && c.minId == minId && c.maxId == maxId && c.chunkRows == chunkRows && c.completedAt == now
  }

  lemma ClosesItself(w: Work, now: nat)
    ensures Closes(CompleteOf(w, now), |w.snapshot|, w.minId, w.maxId, w.chunkRows, now)
  {
  }

  /** What is found stored for a range and does not fit is refused with its reason. */
  ghost predicate RefusesStored(b: Bucket, t: Table, idStart: nat, idEnd: nat, failure: Option<Why>) {
    if ManifestKey(idStart, idEnd) in b then
      match b[ManifestKey(idStart, idEnd)]
      case ManifestFile(m) =>
        && (m.idStart != idStart || m.idEnd != idEnd <==> failure == Some(WrongRange))
        && (m.idStart == idStart && m.idEnd == idEnd
            && (DataKey(idStart, idEnd) !in b || Sha256(b[DataKey(idStart, idEnd)]) != m.sha)
            <==> failure == Some(StoredMismatch))
      case _ => failure == Some(StoredMismatch)
    else
      DataKey(idStart, idEnd) in b && b[DataKey(idStart, idEnd)] != DataFile(Range(t, idStart, idEnd))
      <==> failure == Some(DataMismatch)
  }

  class ArchiveBucket {
    var objects: map<Key, Object>

    constructor ()
      ensures objects == map[]
    {
      objects := map[];
    }

    method Exists(key: Key) returns (found: bool)
      ensures found <==> key in objects
    {
      found := key in objects;
    }

    /**
     * Upload unless present, then require the stored bytes to be the local ones. An object already there is never
     * replaced.
     */
    method PutOnce(key: Key, file: Object) returns (ok: bool)
      modifies this
      ensures objects == Once(old(objects), key, file)
      ensures ok <==> Holds(objects, key, file)
      ensures forall k :: k in old(objects) ==> k in objects && objects[k] == old(objects)[k]
    {
      var found := Exists(key);
      if !found {
        objects := objects[key := file];
      }
      ok := Sha256(objects[key]) == Sha256(file);
    }

    /** Data first, manifest only once the data has been read back. */
    method Upload(idStart: nat, idEnd: nat, rows: Table) returns (failure: Option<Why>)
      modifies this
      ensures var data := Once(old(objects), DataKey(idStart, idEnd), DataFile(rows));
              var manifest := ManifestFile(ManifestOf(idStart, idEnd, rows));
              if !Holds(data, DataKey(idStart, idEnd), DataFile(rows)) then
                failure == Some(DataMismatch) && objects == data
              else
                && objects == Once(data, ManifestKey(idStart, idEnd), manifest)
                && failure == if Holds(objects, ManifestKey(idStart, idEnd), manifest) then None
                   else Some(ManifestMismatch)
    {
      var ok := PutOnce(DataKey(idStart, idEnd), DataFile(rows));
      if !ok { return Some(DataMismatch); }
      ok := PutOnce(ManifestKey(idStart, idEnd), ManifestFile(ManifestOf(idStart, idEnd, rows)));
      return if ok then None else Some(ManifestMismatch);
    }

    /** One turn of the loop over ranges: resume a stored chunk or export and upload a new one. */
    method ArchiveChunk(w: Work, table: Table, ghost env: Env) returns (failure: Option<Why>, w': Work)
      requires w.chunkRows > 0 && w.next <= w.maxId
      modifies this
      ensures failure.Some? ==>
                Solo(Run(CheckManifest, w), table, old(objects), env) == (Run(Failed(failure.value), w), objects)
      ensures var end := if w.next + w.chunkRows <= w.maxId then w.next + w.chunkRows else w.maxId + 1;
              RefusesStored(old(objects), table, w.next, end, failure)
              && (failure in {Some(StoredMismatch), Some(WrongRange), Some(DataMismatch)} ==> objects == old(objects))
      ensures failure.None? ==>
                && (exists m, uploaded :: w' == Extended(w, m, uploaded))
                && w.next < w'.next <= w.maxId + 1 && InBounds(LoopHead(w', env.now))
                && Solo(Run(CheckManifest, w), table, old(objects), env)
                   == Solo(LoopHead(w', env.now), table, objects, env)
    {
      hide Solo, RowsIn, LoopHead, Smallest, Largest, InBounds;
      var idStart, idEnd := w.next, ChunkEnd(w);
      ChunkEndShape(w);
      var stored := Exists(ManifestKey(idStart, idEnd));
      if stored {
        SoloResume(w, table, objects, env);
        failure := Resumed(w, objects);
        if failure.Some? { return failure, w; }
        return None, Extended(w, objects[ManifestKey(idStart, idEnd)].manifest, false);
      }
      SoloExport(w, table, objects, env);
      var rows := Range(table, idStart, idEnd);
      SoloPutData(w, rows, table, objects, env);
      SoloPutManifest(w, rows, table, Once(objects, DataKey(idStart, idEnd), DataFile(rows)), env);
      failure := Upload(idStart, idEnd, rows);
      w' := Extended(w, ManifestOf(idStart, idEnd, rows), true);
    }

    /**
     * `archive_table`. The bounds are the snapshot query's answer.
     * The method does to the bucket, and returns, exactly what the step machine's run does when left alone.
     */
    method ArchiveTable(table: Table, minId: nat, maxId: nat, frozenFor: nat, chunkRows: nat, now: nat)
      returns (outcome: Outcome)
      requires table != map[] ==> minId == Smallest(table.Keys) && maxId == Largest(table.Keys)
      modifies this
      ensures chunkRows < 1000 ==> outcome == BadChunkRows && objects == old(objects)
      ensures chunkRows >= 1000 && CompleteKey !in old(objects) ==>
                && (table == map[] ==> outcome == Raised(EmptyTable) && objects == old(objects))
                && (table != map[] && now < table[maxId].at + frozenFor
                    ==> outcome == Raised(NotFrozen) && objects == old(objects))
      ensures chunkRows >= 1000 && CompleteKey in old(objects) && old(objects)[CompleteKey].CompleteFile?
              ==> outcome == Done(old(objects)[CompleteKey].complete) && objects == old(objects)
      ensures chunkRows >= 1000 ==>
                var (run, bucket) := Solo(NewRun(chunkRows), table, old(objects), Env(now, frozenFor));
                objects == bucket && Reports(outcome, run)
      ensures outcome.Done? && CompleteKey !in old(objects)
              ==> Closes(outcome.complete, |table|, minId, maxId, chunkRows, now)
    {
      if chunkRows < 1000 { return BadChunkRows; }
      ghost var env := Env(now, frozenFor);
      SoloStart(chunkRows, table, objects, env);
      hide Solo, RowsIn, Smallest, Largest, Closes, CompleteOf, Extended, Holds, Stage;
      var complete := Exists(CompleteKey);
      if complete {
        var stored := objects[CompleteKey];
        return if stored.CompleteFile? then Done(stored.complete) else Raised(StoredMismatch);
      }
      if |table| == 0 { return Raised(EmptyTable); }
      if table[maxId].at + frozenFor > now { return Raised(NotFrozen); }
      var w := Work(chunkRows, table, minId, maxId, minId, [], {});
      while w.next <= maxId
        invariant w.chunkRows == chunkRows && w.maxId == maxId && w.snapshot == table && w.minId == minId
        invariant InBounds(LoopHead(w, now))
        invariant Solo(NewRun(chunkRows), table, old(objects), env) == Solo(LoopHead(w, now), table, objects, env)
        decreases maxId + 1 - w.next
      {
        var failure, w' := ArchiveChunk(w, table, env);
        if failure.Some? { return Raised(failure.value); }
        w := w';
      }
      if RowsIn(w.chunks) != |table| {
        SoloStops(CountMismatch, w, table, objects, env);
        return Raised(CountMismatch);
      }
      var c := CompleteOf(w, now);
      ClosesItself(w, now);
      SoloPutComplete(c, w, table, objects, env);
      var ok := PutOnce(CompleteKey, CompleteFile(c));
      return if ok then Done(c) else Raised(CompleteMismatch);
    }
  }
}
