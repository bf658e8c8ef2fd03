// What single runs do over whole executions: how old their snapshots are, how wide their chunks, what they read back.
module ArchiveHistory {
  import opened ArchiveProtocol

  /** The run has taken its snapshot. */
  predicate HasSnapshot(r: Run) {
    r.work.snapshot != map[]
  }

  /** One operation keeps the snapshot, or takes it from the table at a time when its newest row is old enough. */
  lemma AdvanceSnapshot(r: Run, t: Table, b: Bucket, env: Env)
    ensures var w, w' := r.work, Advance(r, t, b, env).0.work;
            || (w'.snapshot == w.snapshot && w'.maxId == w.maxId)
            || (w'.snapshot == t && OldEnough(w', env))
  {
    hide RowsIn, Range, ManifestOf, ChunkEnd, LoopHead, Extended, OldEnough;
    match r.pc {
      case CompareData(m) => SnapshotStays(r.work, m, false, env.now);
      case PutManifest(_, rows) =>
        SnapshotStays(r.work, ManifestOf(r.work.next, ChunkEnd(r.work), rows), true, env.now);
      case TakeSnapshot => if |t| > 0 && Aged(t, env) { SnapshotIsAged(r.work.chunkRows, t, env); }
      case _ =>
    }
  }

  lemma SnapshotStays(w: Work, m: Manifest, uploaded: bool, now: nat)
    ensures var w' := LoopHead(Extended(w, m, uploaded), now).work; w'.snapshot == w.snapshot && w'.maxId == w.maxId
  {
    hide RowsIn, ChunkEnd;
  }

  lemma SnapshotIsAged(chunkRows: nat, t: Table, env: Env)
    requires |t| > 0 && Aged(t, env)
    ensures var w := Work(chunkRows, t, Smallest(t.Keys), Largest(t.Keys), Smallest(t.Keys), [], {});
            LoopHead(w, env.now).work == w && OldEnough(w, env)
  {
    hide RowsIn;
  }

  /** Every id of the snapshot is at most maxId, and that row was written at least the age limit before now. */
  ghost predicate OldEnough(w: Work, env: Env) {
    && w.maxId in w.snapshot && (forall id :: id in w.snapshot ==> id <= w.maxId)
    && w.snapshot[w.maxId].at + env.frozenFor <= env.now
  }

  /** Action j is an operation of run i, on the table that is the run's snapshot, at a time when that was old enough. */
  ghost predicate TakenAt(s: System, actions: seq<Action>, mode: Mode, i: nat, w: Work, j: nat) {
    && j < |actions| && Runs(s, actions[..j], mode) && Exec(s, actions[..j], mode).table == w.snapshot
    && actions[j].Do? && actions[j].run == i && OldEnough(w, actions[j].env)
  }

  lemma {:induction false} SnapshotTaken(s: System, actions: seq<Action>, mode: Mode, i: nat) returns (j: nat)
    requires Runs(s, actions, mode) && i in Exec(s, actions, mode).runs
    requires HasSnapshot(Exec(s, actions, mode).runs[i])
    ensures var w := Exec(s, actions, mode).runs[i].work;
            || TakenAt(s, actions, mode, i, w, j)
            || (i in s.runs && s.runs[i].work.snapshot == w.snapshot && s.runs[i].work.maxId == w.maxId)
    decreases |actions|
  {
    j := 0;
    if actions != [] {
      var a, s' := actions[0], Step(s, actions[0]);
      var w := Exec(s, actions, mode).runs[i].work;
      var k := SnapshotTaken(s', actions[1..], mode, i);
      if TakenAt(s', actions[1..], mode, i, w, k) {
        assert actions[..k + 1][0] == a && actions[..k + 1][1..] == actions[1..][..k];
        j := k + 1;
      } else if a.Do? && a.run == i {
        AdvanceSnapshot(s.runs[i], s.table, s.bucket, a.env);
        assert actions[..0] == [];
      }
      hide Advance;
    }
  }

  /**
   * Whatever runs overlap and whatever rows arrive: a run that has its snapshot took it in one of its own operations,
   * when the snapshot was the table and its newest row had the age that this operation asks for.
   */
  lemma SnapshotsWereOld(t: Table, actions: seq<Action>, mode: Mode, i: nat) returns (j: nat)
    requires Runs(Fresh(t), actions, mode) && i in Exec(Fresh(t), actions, mode).runs
    requires HasSnapshot(Exec(Fresh(t), actions, mode).runs[i])
    ensures TakenAt(Fresh(t), actions, mode, i, Exec(Fresh(t), actions, mode).runs[i].work, j)
  {
    j := SnapshotTaken(Fresh(t), actions, mode, i);
  }

  // --- the widths of the chunks ----------------------------------------------------------------

  /** Each chunk covers `chunkRows` ids, or all that are left up to the greatest id. */
  ghost predicate Wide(w: Work) {
    forall i :: 0 <= i < |w.chunks| ==>
      var c := w.chunks[i];
      if c.idStart + w.chunkRows <= w.maxId then c.idEnd == c.idStart + w.chunkRows else c.idEnd == w.maxId + 1
  }

  ghost predicate AllWide(s: System) {
    forall i :: i in s.runs ==> Wide(s.runs[i].work)
  }

  lemma AdvanceWide(r: Run, t: Table, b: Bucket, env: Env)
    requires Wide(r.work)
    ensures Wide(Advance(r, t, b, env).0.work) && Advance(r, t, b, env).0.work.chunkRows == r.work.chunkRows
  {
    hide RowsIn, Range, ManifestOf, Smallest, Largest, Wide;
    match r.pc {
      case CompareData(m) => ExtendedWide(r.work, m, false);
      case PutManifest(_, rows) => ExtendedWide(r.work, ManifestOf(r.work.next, ChunkEnd(r.work), rows), true);
      case TakeSnapshot =>
        if |t| > 0 {
          NothingWide(Work(r.work.chunkRows, t, Smallest(t.Keys), Largest(t.Keys), Smallest(t.Keys), [], {}));
        }
      case _ =>
    }
  }

  lemma NothingWide(w: Work)
    requires w.chunks == []
    ensures Wide(w)
  {
  }

  lemma ExtendedWide(w: Work, m: Manifest, uploaded: bool)
    requires Wide(w)
    ensures Wide(Extended(w, m, uploaded)) && Extended(w, m, uploaded).chunkRows == w.chunkRows
  {
  }

  /**
   * Over every execution, whatever is stored and whatever overlaps, runs archive in chunks of the size they were given.
   */
  lemma {:induction false} ChunksAreWide(s: System, actions: seq<Action>, mode: Mode)
    requires Runs(s, actions, mode) && AllWide(s)
    ensures AllWide(Exec(s, actions, mode))
    decreases |actions|
  {
    if actions != [] {
      var a := actions[0];
      match a {
        case Do(i, env) => AdvanceWide(s.runs[i], s.table, s.bucket, env);
        case Start(i, chunkRows) => NothingWide(NewRun(chunkRows).work);
        case _ =>
      }
      hide Advance, Wide;
      ChunksAreWide(Step(s, a), actions[1..], mode);
    }
  }

  // --- reading back ----------------------------------------------------------------------------

  /** The object a run is about to read back, and the failure when it is not the one that is stored. */
  function Awaited(r: Run): (Key, Object, Why)
    requires ReadsBack(r)
  {
    var idStart, idEnd := r.work.next, ChunkEnd(r.work);
    match r.pc
    case PutData(_, rows) => (DataKey(idStart, idEnd), DataFile(rows), DataMismatch)
    case PutManifest(_, rows) => (ManifestKey(idStart, idEnd), ManifestFile(ManifestOf(idStart, idEnd, rows)),
                                  ManifestMismatch)
    case PutComplete(_, c) => (CompleteKey, CompleteFile(c), CompleteMismatch)
  }

  predicate ReadsBack(r: Run) {
    (r.pc.PutData? || r.pc.PutManifest? || r.pc.PutComplete?) && r.pc.phase.ReadBack?
  }

  /** Reading back fails exactly when another object is stored, or none, whatever else the bucket holds. */
  lemma ReadingBackCompares(r: Run, t: Table, b: Bucket, env: Env)
    requires ReadsBack(r)
    ensures var (k, file, why) := Awaited(r);
            && Advance(r, t, b, env).1 == b
            && (Advance(r, t, b, env).0.pc == Failed(why) <==> k !in b || b[k] != file)
  {
    hide RowsIn;
  }

  /** A chunk is marked as resumed when it was found stored, and not when the run uploaded it. */
  lemma ResumedIsMarked(r: Run, t: Table, b: Bucket, env: Env)
    requires r.pc.CompareData? || (r.pc.PutManifest? && r.pc.phase.ReadBack?)
    ensures var r' := Advance(r, t, b, env).0;
            |r'.work.chunks| > |r.work.chunks|
            ==> r'.work.resumed == r.work.resumed + (if r.pc.CompareData? then {|r.work.chunks|} else {})
  {
    hide RowsIn, Range, ManifestOf, ChunkEnd, Holds;
  }

  /** Where the run published its result: after that many actions, COMPLETE.json was what it returned. */
  ghost predicate PublishedAt(s: System, actions: seq<Action>, mode: Mode, c: Complete, j: nat) {
    && j <= |actions| && Runs(s, actions[..j], mode)
    && CompleteKey in Exec(s, actions[..j], mode).bucket
    && Exec(s, actions[..j], mode).bucket[CompleteKey] == CompleteFile(c)
  }

  lemma {:induction false} ResultWasStored(s: System, actions: seq<Action>, mode: Mode, i: nat) returns (j: nat)
    requires Runs(s, actions, mode) && i in Exec(s, actions, mode).runs && Exec(s, actions, mode).runs[i].pc.Finished?
    ensures var c := Exec(s, actions, mode).runs[i].pc.result;
            PublishedAt(s, actions, mode, c, j) || (i in s.runs && s.runs[i].pc == Finished(c))
    decreases |actions|
  {
    j := 0;
    if actions != [] {
      var a, s' := actions[0], Step(s, actions[0]);
      var c := Exec(s, actions, mode).runs[i].pc.result;
      var k := ResultWasStored(s', actions[1..], mode, i);
      if PublishedAt(s', actions[1..], mode, c, k) {
        assert actions[..k + 1][0] == a && actions[..k + 1][1..] == actions[1..][..k];
        j := k + 1;
      } else if a.Do? && a.run == i {
        FinishingStep(s.runs[i], s.table, s.bucket, a.env);
        assert actions[..0] == [];
      }
      hide Advance;
    }
  }

  lemma FinishingStep(r: Run, t: Table, b: Bucket, env: Env)
    ensures var r' := Advance(r, t, b, env).0;
            r'.pc.Finished? ==> r'.pc == r.pc || (CompleteKey in b && b[CompleteKey] == CompleteFile(r'.pc.result))
  {
    hide RowsIn, Range, ManifestOf, ChunkEnd, Smallest, Largest;
  }

  /** Under every overlap, what a finished run returned was stored as COMPLETE.json, found there or read back. */
  lemma ResultsWereStored(t: Table, actions: seq<Action>, mode: Mode, i: nat) returns (j: nat)
    requires Runs(Fresh(t), actions, mode) && i in Exec(Fresh(t), actions, mode).runs
    requires Exec(Fresh(t), actions, mode).runs[i].pc.Finished?
    ensures PublishedAt(Fresh(t), actions, mode, Exec(Fresh(t), actions, mode).runs[i].pc.result, j)
  {
    j := ResultWasStored(Fresh(t), actions, mode, i);
  }
}
