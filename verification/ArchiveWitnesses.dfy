// An execution in which COMPLETE.json misses a row. The age check looks only at the row with the greatest id, so rows
// that arrive late with smaller ids pass it.
module ArchiveWitnesses {
  import opened Prelude
  import opened ArchiveProtocol
  import opened ArchiveStories

  /** Rows of the first table are old by now, rows added since are new. */
  const NOW: Env := Env(48, 24)

  function Told(t: Table): Story {
    Story(t, Serial, 1000, NOW, {1, 1500})
  }

  /**
   * While rows arrive the row count is not enough, even for runs that never overlap: a chunk stored before
   * the snapshot is one row short, a later chunk is one row over, the total agrees, and COMPLETE.json is published
   * while row 1 of the snapshot is in no stored data.
   */
  lemma ResumedChunkCanHideAMissingRow() returns (t: Table, actions: seq<Action>, s: System)
    ensures Played(Told(t), actions, s)
    ensures HidesRowOne(s)
  {
    hide Played, RowsIn, LoopHead, HidesRowOne;
    t := map[0 := Row("a", 0), 1999 := Row("b", 0)];
    PlayedNothing(Told(t));
    var as1, s1 := StartsAndExports(Told(t), [], Fresh(t), 0, 0, 1999);
    var as2, s2 := StoresPair(Told(t), as1, s1, 0, Begun(1000, t, 0, 1999), Range(t, 0, 1000));
    var as3 := Then(Told(t), as2, s2, Kill(0));
    var as4 := Adds(Told(t), as3, s2.(runs := map[]), 1, Row("c", 48));
    actions, s := SecondRun(t, as4, System(t[1 := Row("c", 48)], s2.bucket, map[]));
  }

  ghost predicate Midway(s: System, t: Table, early: Table, w: Work) {
    && s.table == t[1 := Row("c", 48)]
    && s.bucket == map[DataKey(0, 1000) := DataFile(early),
                       ManifestKey(0, 1000) := ManifestFile(ManifestOf(0, 1000, early))]
    && At(s, 1, CheckManifest, w)
    && w == Extended(Begun(1000, s.table, 0, 1999), ManifestOf(0, 1000, early), false)
  }

  /** The second run takes the stored first chunk over, and row 1500 arrives before it exports the second one. */
  lemma SecondRun(t: Table, actions: seq<Action>, s: System) returns (actions': seq<Action>, s': System)
    requires t == map[0 := Row("a", 0), 1999 := Row("b", 0)]
    requires s == System(t[1 := Row("c", 48)], map[DataKey(0, 1000) := DataFile(Range(t, 0, 1000)),
                                          ManifestKey(0, 1000)
                                          := ManifestFile(ManifestOf(0, 1000, Range(t, 0, 1000)))], map[])
    requires Played(Told(t), actions, s)
    ensures Played(Told(t), actions', s') && HidesRowOne(s')
  {
    hide Played, HidesRowOne, Range, Smallest, Largest;
    var early := Range(t, 0, 1000);
    Counts(t, t[1 := Row("c", 48)]);
    Ends(t[1 := Row("c", 48)], 0, 1999, NOW);
    var as1 := Starts(Told(t), actions, s, 1);
    var as2, s2 := Begins(Told(t), as1, s.(runs := map[1 := NewRun(1000)]), 1);
    var w0 := Begun(1000, t[1 := Row("c", 48)], 0, 1999);
    var m0 := ManifestOf(0, 1000, early);
    ManifestFields(0, 1000, early);
    var as3, s3 := Resumes(Told(t), as2, s2, 1, w0, m0);
    LoopHeadAt(Extended(w0, m0, false));
    actions', s' := SecondChunk(t, as3, s3, early, Extended(w0, m0, false));
  }

  ghost predicate HidesRowOne(s: System) {
    && 1 in s.table && CompleteKey in s.bucket && s.bucket[CompleteKey].CompleteFile?
    && s.bucket[CompleteKey].complete.minId <= 1 <= s.bucket[CompleteKey].complete.maxId
    && s.bucket[CompleteKey].complete.snapshotCount == 3
    && forall k :: k in s.bucket && s.bucket[k].DataFile? ==> 1 !in s.bucket[k].rows
  }

  /** The second chunk is stored, and its manifest waits to be read back. */
  ghost predicate AlmostDone(s: System, t: Table, early: Table, late: Table, w: Work) {
    && 1 in s.table
    && s.bucket == map[DataKey(0, 1000) := DataFile(early),
                       ManifestKey(0, 1000) := ManifestFile(ManifestOf(0, 1000, early)),
                       DataKey(1000, 2000) := DataFile(late),
                       ManifestKey(1000, 2000) := ManifestFile(ManifestOf(1000, 2000, late))]
    && At(s, 1, PutManifest(ReadBack, late), w)
  }

  lemma SecondChunk(t: Table, actions: seq<Action>, s: System, early: Table, w: Work)
    returns (actions': seq<Action>, s': System)
    requires t == map[0 := Row("a", 0), 1999 := Row("b", 0)] && early == map[0 := Row("a", 0)]
    requires Played(Told(t), actions, s) && Midway(s, t, early, w)
    ensures Played(Told(t), actions', s') && HidesRowOne(s')
  {
    hide Played, LoopHead, Range, RowsIn, Advance, Smallest, Largest, ManifestOf, HidesRowOne;
    var seen := t[1 := Row("c", 48)];
    var late := Range(seen[1500 := Row("d", 48)], 1000, 2000);
    Counts(t, seen);
    ManifestFields(0, 1000, early);
    var as4 := Adds(Told(t), actions, s, 1500, Row("d", 48));
    var as5, s5 := ExportsNext(Told(t), as4, s.(table := seen[1500 := Row("d", 48)]), 1, w);
    var as6, s6 := StoresPair(Told(t), as5, s5, 1, w, late);
    actions', s' := LastSteps(t, as6, s6, early, late, w);
  }

  lemma LastSteps(t: Table, actions: seq<Action>, s: System, early: Table, late: Table, w: Work)
    returns (actions': seq<Action>, s': System)
    requires Played(Told(t), actions, s) && AlmostDone(s, t, early, late, w)
    requires w == Extended(Begun(1000, t[1 := Row("c", 48)], 0, 1999), ManifestOf(0, 1000, early), false)
    requires |early| == 1 && |late| == 2 && |t[1 := Row("c", 48)]| == 3 && 1 !in early && 1 !in late
    ensures Played(Told(t), actions', s') && HidesRowOne(s')
  {
    hide Played, LoopHead, Range, RowsIn, Advance, Smallest, Largest, ManifestOf, HidesRowOne;
    ManifestFields(0, 1000, early);
    ManifestFields(1000, 2000, late);
    var as7, s7 := VerifiesManifest(Told(t), actions, s, 1, w, late);
    var w2 := Extended(w, ManifestOf(1000, 2000, late), true);
    TwoChunks(Begun(1000, t[1 := Row("c", 48)], 0, 1999), w, w2, ManifestOf(0, 1000, early),
              ManifestOf(1000, 2000, late));
    LoopHeadAt(w2);
    actions', s' := Publishes(Told(t), as7, s7, 1, w2, CompleteOf(w2, NOW.now));
    RowOneHidden(s7, s', early, late, CompleteOf(w2, NOW.now));
  }

  lemma RowOneHidden(s: System, s': System, early: Table, late: Table, c: Complete)
    requires s.bucket == map[DataKey(0, 1000) := DataFile(early),
                             ManifestKey(0, 1000) := ManifestFile(ManifestOf(0, 1000, early)),
                             DataKey(1000, 2000) := DataFile(late),
                             ManifestKey(1000, 2000) := ManifestFile(ManifestOf(1000, 2000, late))]
    requires s'.bucket == s.bucket[CompleteKey := CompleteFile(c)]
    requires 1 in s'.table && 1 !in early && 1 !in late && c.minId <= 1 <= c.maxId && c.snapshotCount == 3
    ensures HidesRowOne(s')
  {
  }

  lemma ManifestFields(idStart: nat, idEnd: nat, rows: Table)
    ensures var m := ManifestOf(idStart, idEnd, rows);
            m.idStart == idStart && m.idEnd == idEnd && m.rowCount == |rows| && m.sha == Sha256(DataFile(rows))
  {
  }

  lemma LoopHeadAt(w: Work)
    ensures LoopHead(w, NOW.now) == if w.next <= w.maxId then Run(CheckManifest, w)
                              else if RowsIn(w.chunks) != |w.snapshot| then Run(Failed(CountMismatch), w)
                              else Run(PutComplete(Look, CompleteOf(w, NOW.now)), w)
  {
  }

  lemma NoRows()
    ensures RowsIn([]) == 0
  {
  }

  lemma RowsAppend(chunks: seq<Chunk>, c: Chunk)
    ensures RowsIn(chunks + [c]) == RowsIn(chunks) + c.rowCount
  {
    assert Init(chunks + [c]) == chunks;
  }

  lemma TwoChunks(w0: Work, w1: Work, w2: Work, m0: Manifest, m1: Manifest)
    requires w0.chunks == [] && w1 == Extended(w0, m0, false) && w2 == Extended(w1, m1, true)
    ensures RowsIn(w2.chunks) == m0.rowCount + m1.rowCount
  {
    hide RowsIn;
    NoRows();
    RowsAppend(w0.chunks, Chunk(w0.next, ChunkEnd(w0), m0.rowCount, m0.sha));
    RowsAppend(w1.chunks, Chunk(w1.next, ChunkEnd(w1), m1.rowCount, m1.sha));
  }

  lemma Counts(t: Table, seen: Table)
    requires t == map[0 := Row("a", 0), 1999 := Row("b", 0)] && seen == t[1 := Row("c", 48)]
    ensures Range(t, 0, 1000) == map[0 := Row("a", 0)] && |Range(t, 0, 1000)| == 1 && |seen| == 3
    ensures Range(seen[1500 := Row("d", 48)], 1000, 2000) == map[1500 := Row("d", 48), 1999 := Row("b", 0)]
    ensures |Range(seen[1500 := Row("d", 48)], 1000, 2000)| == 2
  {
  }
}
