// Building executions of the archive one operation at a time.
module ArchiveStories {
  import opened ArchiveProtocol
  import opened ArchiveInvariant

  /**
   * An execution from an empty bucket: its table, its discipline, the chunk size of its runs, what they
   * see, and the ids it may add.
   */
  datatype Story = Story(table: Table, mode: Mode, chunkRows: nat, env: Env, added: set<nat>)

  ghost predicate Tells(story: Story, a: Action) {
    (a.AddRow? ==> a.id in story.added) && (a.Do? ==> a.env == story.env)
  }

  /** The actions are of the story and lead to `s`. */
  ghost predicate Played(story: Story, actions: seq<Action>, s: System) {
    && Runs(Fresh(story.table), actions, story.mode) && Exec(Fresh(story.table), actions, story.mode) == s
    && forall i :: 0 <= i < |actions| ==> Tells(story, actions[i])
  }

  lemma {:induction false} RunsAppend(s: System, actions: seq<Action>, a: Action, mode: Mode)
    requires Runs(s, actions, mode) && Allowed(Exec(s, actions, mode), a, mode)
    ensures Runs(s, actions + [a], mode)
    ensures Exec(s, actions + [a], mode) == Step(Exec(s, actions, mode), a)
    decreases |actions|
  {
    hide Step;
    if actions == [] {
      assert ([a])[1..] == [];
    } else {
      assert (actions + [a])[0] == actions[0] && (actions + [a])[1..] == actions[1..] + [a];
      RunsAppend(Step(s, actions[0]), actions[1..], a, mode);
    }
  }

  lemma Then(story: Story, actions: seq<Action>, s: System, a: Action) returns (actions': seq<Action>)
    requires Played(story, actions, s) && Allowed(s, a, story.mode) && Tells(story, a)
    ensures Played(story, actions', Step(s, a))
  {
    RunsAppend(Fresh(story.table), actions, a, story.mode);
    actions' := actions + [a];
  }

  lemma PlayedNothing(story: Story)
    ensures Played(story, [], Fresh(story.table))
  {
  }

  /** The run after one more operation, when that operation only looks. */
  lemma Looks(story: Story, actions: seq<Action>, s: System, i: nat) returns (actions': seq<Action>, s': System)
    requires Played(story, actions, s) && i in s.runs
             && Advance(s.runs[i], s.table, s.bucket, story.env).1 == s.bucket
    ensures Played(story, actions', s')
    ensures s' == s.(runs := s.runs[i := Advance(s.runs[i], s.table, s.bucket, story.env).0])
  {
    actions' := Then(story, actions, s, Do(i, story.env));
    s' := Step(s, Do(i, story.env));
  }

  ghost predicate At(s: System, i: nat, pc: Pc, w: Work) {
    i in s.runs && s.runs[i] == Run(pc, w)
  }

  function Others(s: System, i: nat): map<nat, Run> {
    s.runs - {i}
  }

  /** A run in front of its first range whose data is not stored yet exports it and is about to send it. */
  lemma ExportsNext(story: Story, actions: seq<Action>, s: System, i: nat, w: Work)
    returns (actions': seq<Action>, s': System)
    requires Played(story, actions, s) && At(s, i, CheckManifest, w)
    requires DataKey(w.next, ChunkEnd(w)) !in s.bucket && ManifestKey(w.next, ChunkEnd(w)) !in s.bucket
    ensures Played(story, actions', s') && s'.table == s.table && s'.bucket == s.bucket
            && Others(s', i) == Others(s, i)
    ensures At(s', i, PutData(Send, Range(s.table, w.next, ChunkEnd(w))), w)
  {
    hide Range, ChunkEnd;
    var as1, s1 := Looks(story, actions, s, i);
    var as2, s2 := Looks(story, as1, s1, i);
    actions', s' := Looks(story, as2, s2, i);
  }

  lemma Begins(story: Story, actions: seq<Action>, s: System, i: nat) returns (actions': seq<Action>, s': System)
    requires Played(story, actions, s) && At(s, i, CheckComplete, NewRun(story.chunkRows).work)
    requires CompleteKey !in s.bucket && |s.table| > 0 && Aged(s.table, story.env)
    ensures Played(story, actions', s') && s'.table == s.table && s'.bucket == s.bucket
            && Others(s', i) == Others(s, i)
    ensures At(s', i, CheckManifest,
               Work(story.chunkRows, s.table, Smallest(s.table.Keys), Largest(s.table.Keys), Smallest(s.table.Keys),
                    [], {}))
  {
    hide RowsIn;
    var as1, s1 := Looks(story, actions, s, i);
    actions', s' := Looks(story, as1, s1, i);
  }

  /** Sends data, reads it back, and stores the manifest. */
  lemma StoresPair(story: Story, actions: seq<Action>, s: System, i: nat, w: Work, rows: Table)
    returns (actions': seq<Action>, s': System)
    requires Played(story, actions, s) && At(s, i, PutData(Send, rows), w)
             && ManifestKey(w.next, ChunkEnd(w)) !in s.bucket
    ensures Played(story, actions', s') && s'.table == s.table && Others(s', i) == Others(s, i)
    ensures s'.bucket == s.bucket[DataKey(w.next, ChunkEnd(w)) := DataFile(rows)]
                                 [ManifestKey(w.next, ChunkEnd(w))
                                  := ManifestFile(ManifestOf(w.next, ChunkEnd(w), rows))]
    ensures At(s', i, PutManifest(ReadBack, rows), w)
  {
    hide ChunkEnd, ManifestOf;
    var as1 := Then(story, actions, s, Do(i, story.env));
    var s1 := Step(s, Do(i, story.env));
    assert At(s1, i, PutData(ReadBack, rows), w);
    var as2, s2 := Looks(story, as1, s1, i);
    assert At(s2, i, PutManifest(Look, rows), w);
    var as3, s3 := Looks(story, as2, s2, i);
    assert At(s3, i, PutManifest(Send, rows), w);
    actions' := Then(story, as3, s3, Do(i, story.env));
    s' := Step(s3, Do(i, story.env));
  }

  lemma Adds(story: Story, actions: seq<Action>, s: System, id: nat, row: Row) returns (actions': seq<Action>)
    requires Played(story, actions, s) && id !in s.table && id in story.added
    requires story.mode.Serial? || story.mode.Unrestricted?
    ensures Played(story, actions', s.(table := s.table[id := row]))
  {
    actions' := Then(story, actions, s, AddRow(id, row));
  }

  lemma Starts(story: Story, actions: seq<Action>, s: System, i: nat) returns (actions': seq<Action>)
    requires Played(story, actions, s) && i !in s.runs && story.chunkRows >= 1000
    requires story.mode.Serial? ==> forall j :: j in s.runs ==> !Live(s.runs[j])
    ensures Played(story, actions', s.(runs := s.runs[i := NewRun(story.chunkRows)]))
  {
    actions' := Then(story, actions, s, Start(i, story.chunkRows));
  }

  lemma Ends(t: Table, lo: nat, hi: nat, env: Env)
    requires Bounds(t, lo, hi)
    ensures Smallest(t.Keys) == lo && Largest(t.Keys) == hi && |t| > 0
    ensures t[hi].at + env.frozenFor <= env.now ==> Aged(t, env)
  {
    assert lo in t.Keys && hi in t.Keys;
  }

  /** The work of a run that has just taken its snapshot of a table between lo and hi. */
  function Begun(chunkRows: nat, t: Table, lo: nat, hi: nat): Work {
    Work(chunkRows, t, lo, hi, lo, [], {})
  }

  /** A new run takes its snapshot, exports its first range and is about to send it. */
  lemma StartsAndExports(story: Story, actions: seq<Action>, s: System, i: nat, lo: nat, hi: nat)
    returns (actions': seq<Action>, s': System)
    requires Played(story, actions, s) && i !in s.runs && story.chunkRows >= 1000 && Bounds(s.table, lo, hi)
    requires s.table[hi].at + story.env.frozenFor <= story.env.now
    requires story.mode.Serial? ==> forall j :: j in s.runs ==> !Live(s.runs[j])
    requires CompleteKey !in s.bucket
    requires DataKey(lo, ChunkEnd(Begun(story.chunkRows, s.table, lo, hi))) !in s.bucket
             && ManifestKey(lo, ChunkEnd(Begun(story.chunkRows, s.table, lo, hi))) !in s.bucket
    ensures Played(story, actions', s') && s'.table == s.table && s'.bucket == s.bucket && Others(s', i) == s.runs
    ensures var w := Begun(story.chunkRows, s.table, lo, hi);
            At(s', i, PutData(Send, Range(s.table, lo, ChunkEnd(w))), w)
  {
    hide Played, Range, Smallest, Largest, ChunkEnd;
    Ends(s.table, lo, hi, story.env);
    var as1 := Starts(story, actions, s, i);
    var s1 := s.(runs := s.runs[i := NewRun(story.chunkRows)]);
    var as2, s2 := Begins(story, as1, s1, i);
    actions', s' := ExportsNext(story, as2, s2, i, Begun(story.chunkRows, s.table, lo, hi));
  }

  /** A chunk that an earlier run stored is taken over with its old row count. */
  lemma Resumes(story: Story, actions: seq<Action>, s: System, i: nat, w: Work, m: Manifest)
    returns (actions': seq<Action>, s': System)
    requires Played(story, actions, s) && At(s, i, CheckManifest, w)
    requires ManifestKey(w.next, ChunkEnd(w)) in s.bucket
             && s.bucket[ManifestKey(w.next, ChunkEnd(w))] == ManifestFile(m)
    requires m.idStart == w.next && m.idEnd == ChunkEnd(w)
    requires DataKey(w.next, ChunkEnd(w)) in s.bucket && m.sha == Sha256(s.bucket[DataKey(w.next, ChunkEnd(w))])
    ensures Played(story, actions', s') && s'.table == s.table && s'.bucket == s.bucket
            && Others(s', i) == Others(s, i)
    ensures i in s'.runs && s'.runs[i] == LoopHead(Extended(w, m, false), story.env.now)
  {
    hide ChunkEnd, Extended, LoopHead, Range, ManifestOf;
    var as1, s1 := Looks(story, actions, s, i);
    assert At(s1, i, ReadManifest, w);
    var as2, s2 := Looks(story, as1, s1, i);
    assert At(s2, i, CompareData(m), w);
    actions', s' := Looks(story, as2, s2, i);
  }

  /** Reads the manifest back and goes on. */
  lemma VerifiesManifest(story: Story, actions: seq<Action>, s: System, i: nat, w: Work, rows: Table)
    returns (actions': seq<Action>, s': System)
    requires Played(story, actions, s) && At(s, i, PutManifest(ReadBack, rows), w)
    requires Holds(s.bucket, ManifestKey(w.next, ChunkEnd(w)), ManifestFile(ManifestOf(w.next, ChunkEnd(w), rows)))
    ensures Played(story, actions', s') && s'.table == s.table && s'.bucket == s.bucket
            && Others(s', i) == Others(s, i)
    ensures i in s'.runs
            && s'.runs[i] == LoopHead(Extended(w, ManifestOf(w.next, ChunkEnd(w), rows), true), story.env.now)
  {
    hide ChunkEnd, Extended, LoopHead, Range, ManifestOf;
    actions', s' := Looks(story, actions, s, i);
  }

  lemma Publishes(story: Story, actions: seq<Action>, s: System, i: nat, w: Work, c: Complete)
    returns (actions': seq<Action>, s': System)
    requires Played(story, actions, s) && At(s, i, PutComplete(Look, c), w) && CompleteKey !in s.bucket
    ensures Played(story, actions', s') && s'.table == s.table
            && s'.bucket == s.bucket[CompleteKey := CompleteFile(c)]
  {
    var as1, s1 := Looks(story, actions, s, i);
    assert At(s1, i, PutComplete(Send, c), w);
    actions' := Then(story, as1, s1, Do(i, story.env));
    s' := Step(s1, Do(i, story.env));
  }
}
