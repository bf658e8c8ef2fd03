// One run left alone: it terminates, and it completes any interrupted archive of a frozen table.
module ArchiveSolo {
  import opened ArchiveProtocol
  import opened ArchiveInvariant
  import opened ArchiveSafety

  // --- every run is finite ---------------------------------------------------------------------

  function Stage(r: Run): nat {
    match r.pc
    case CheckComplete => 4
    case ReadComplete => 3
    case TakeSnapshot => 3
    case PutComplete(_, _) => 1
    case Finished(_) => 0
    case Failed(_) => 0
    case _ => 2
  }

  function IdsLeft(r: Run): nat {
    if Stage(r) == 2 && r.work.next <= r.work.maxId then r.work.maxId + 1 - r.work.next else 0
  }

  function PhasesLeft(p: Phase): nat {
    match p case Look => 3 case Send => 2 case ReadBack => 1
  }

  function OpsLeft(r: Run): nat {
    match r.pc
    case CheckManifest => 9
    case ReadManifest => 8
    case CompareData(_) => 7
    case Export => 8
    case PutData(p, _) => 4 + PhasesLeft(p)
    case PutManifest(p, _) => 1 + PhasesLeft(p)
    case PutComplete(p, _) => PhasesLeft(p)
    case _ => 0
  }

  predicate InBounds(r: Run) {
    r.work.chunkRows > 0 && (Stage(r) == 2 ==> r.work.next <= r.work.maxId)
  }

  lemma LoopHeadShape(w: Work, now: nat)
    ensures LoopHead(w, now).work == w
    ensures LoopHead(w, now).pc == if w.next <= w.maxId then CheckManifest
                                   else if RowsIn(w.chunks) != |w.snapshot| then Failed(CountMismatch)
                                   else PutComplete(Look, CompleteOf(w, now))
  {
  }

  lemma ChunkEndShape(w: Work)
    requires w.chunkRows > 0 && w.next <= w.maxId
    ensures w.next < ChunkEnd(w) <= w.maxId + 1
  {
  }

  ghost predicate Nearer(r': Run, r: Run) {
    || Stage(r') < Stage(r)
    || (Stage(r') == Stage(r) && IdsLeft(r') < IdsLeft(r))
    || (Stage(r') == Stage(r) && IdsLeft(r') == IdsLeft(r) && OpsLeft(r') < OpsLeft(r))
  }

  /** Each operation brings a live run strictly nearer its end, whatever the bucket and the table hold. */
  lemma AdvanceDescends(r: Run, t: Table, b: Bucket, env: Env)
    requires Live(r) && InBounds(r)
    ensures InBounds(Advance(r, t, b, env).0) && Nearer(Advance(r, t, b, env).0, r)
  {
    hide LoopHead, RowsIn, Range, Extended, ChunkEnd, ManifestOf, Nearer, InBounds;
    var r' := Advance(r, t, b, env).0;
    if r.pc.TakeSnapshot? && |t| > 0 && Aged(t, env) {
      LoopStarts(r, t, env.now);
    } else if r.pc.CompareData? || r.pc.PutManifest? {
      ChunkDescends(r, t, b, env);
    } else {
      SameWork(r', r);
    }
  }

  lemma ChunkDescends(r: Run, t: Table, b: Bucket, env: Env)
    requires r.pc.CompareData? || r.pc.PutManifest?
    requires InBounds(r)
    ensures InBounds(Advance(r, t, b, env).0) && Nearer(Advance(r, t, b, env).0, r)
  {
    hide LoopHead, RowsIn, Range, Extended, ChunkEnd, ManifestOf, Nearer, InBounds;
    var r' := Advance(r, t, b, env).0;
    match r.pc {
      case CompareData(m) =>
        CollectDescends(r, m, false, env.now);
        SameWork(Run(Failed(StoredMismatch), r.work), r);
      case PutManifest(phase, rows) =>
        CollectDescends(r, ManifestOf(r.work.next, ChunkEnd(r.work), rows), true, env.now);
        if !phase.ReadBack? { SameWork(r', r); } else { SameWork(Run(Failed(ManifestMismatch), r.work), r); }
    }
  }

  /** A step that leaves the work alone moves on by stage or by operation. */
  lemma SameWork(r': Run, r: Run)
    requires InBounds(r) && r'.work == r.work
    requires Stage(r') < Stage(r) || (Stage(r') == Stage(r) && OpsLeft(r') < OpsLeft(r))
    requires Stage(r') == 2 ==> Stage(r) == 2
    ensures InBounds(r') && Nearer(r', r)
  {
  }

  lemma CollectDescends(r: Run, m: Manifest, uploaded: bool, now: nat)
    requires Stage(r) == 2 && InBounds(r)
    ensures InBounds(LoopHead(Extended(r.work, m, uploaded), now))
            && Nearer(LoopHead(Extended(r.work, m, uploaded), now), r)
  {
    hide RowsIn;
    ChunkEndShape(r.work);
    LoopHeadShape(Extended(r.work, m, uploaded), now);
  }

  lemma LoopStarts(r: Run, t: Table, now: nat)
    requires r.pc.TakeSnapshot? && InBounds(r) && |t| > 0
    ensures var r' := LoopHead(Work(r.work.chunkRows, t, Smallest(t.Keys), Largest(t.Keys), Smallest(t.Keys), [], {}),
                               now);
            InBounds(r') && Nearer(r', r)
  {
    hide RowsIn;
  }

  /** A run that nothing interrupts, on a table that nothing changes. */
  ghost function Solo(r: Run, t: Table, b: Bucket, env: Env): (Run, Bucket)
    requires InBounds(r)
    decreases Stage(r), IdsLeft(r), OpsLeft(r)
  {
    if !Live(r) then (r, b)
    else
      AdvanceDescends(r, t, b, env);
      var (r', b') := Advance(r, t, b, env);
      Solo(r', t, b', env)
  }

  lemma SoloStep(r: Run, t: Table, b: Bucket, env: Env)
    requires InBounds(r) && Live(r)
    ensures InBounds(Advance(r, t, b, env).0)
    ensures Solo(r, t, b, env) == Solo(Advance(r, t, b, env).0, t, Advance(r, t, b, env).1, env)
  {
    AdvanceDescends(r, t, b, env);
  }

  // --- an archive interrupted anywhere can be completed ------------------------------------------

  /** Nobody else writes COMPLETE.json while this run is on its way to it. */
  predicate Alone(r: Run, b: Bucket) {
    match r.pc
    case CheckComplete => true
    case ReadComplete => CompleteKey in b
    case PutComplete(ReadBack, c) => CompleteKey in b && b[CompleteKey] == CompleteFile(c)
    case Finished(c) => CompleteKey in b && b[CompleteKey] == CompleteFile(c)
    case Failed(why) => !why.CompleteMismatch?
    case _ => CompleteKey !in b
  }

  lemma AdvanceAlone(r: Run, t: Table, b: Bucket, env: Env)
    requires Alone(r, b) && (CompleteKey in b ==> b[CompleteKey].CompleteFile?)
    ensures Alone(Advance(r, t, b, env).0, Advance(r, t, b, env).1)
  {
    hide RowsIn, LoopHead, Extended, ChunkEnd, Range, ManifestOf, Smallest, Largest;
    match r.pc {
      case CompareData(m) => LoopHeadAlone(Extended(r.work, m, false), env.now, b);
      case PutManifest(_, rows) =>
        LoopHeadAlone(Extended(r.work, ManifestOf(r.work.next, ChunkEnd(r.work), rows), true), env.now, b);
      case TakeSnapshot =>
        if |t| > 0 {
          var lo, hi := Smallest(t.Keys), Largest(t.Keys);
          LoopHeadAlone(Work(r.work.chunkRows, t, lo, hi, lo, [], {}), env.now, b);
        }
      case _ =>
    }
  }

  lemma LoopHeadAlone(w: Work, now: nat, b: Bucket)
    requires CompleteKey !in b
    ensures Alone(LoopHead(w, now), b)
  {
    hide RowsIn;
  }

  /** Whether the guards of the snapshot let this run pass. */
  ghost predicate Admitted(r: Run, t: Table, env: Env) {
    |t| > 0 && Aged(t, env) && (r.pc.Failed? ==> r.pc.why.CompleteMismatch?)
  }

  lemma AdvanceAdmitted(r: Run, t: Table, b: Bucket, env: Env)
    requires Admitted(r, t, env) && BucketOk(b, t, Frozen) && RunOk(r, b, t, Frozen)
    ensures Admitted(Advance(r, t, b, env).0, t, env)
  {
    hide BucketOk, RunOk;
    AdvanceKeeps(r, t, b, env, Frozen);
    hide Advance, Kept;
    KeptRunOk(r, t, b, env);
    FailureNames(r, t, b, env);
  }

  lemma KeptRunOk(r: Run, t: Table, b: Bucket, env: Env)
    requires Kept(r, t, b, env, Frozen)
    ensures var (r', b') := Advance(r, t, b, env); BucketOk(b', t, Frozen) && RunOk(r', b', t, Frozen)
    ensures Advance(r, t, b, env).0.pc.Failed?
            ==> Advance(r, t, b, env).0.pc.why in {EmptyTable, NotFrozen, CompleteMismatch}
  {
    hide BucketOk, Advance;
  }

  lemma FailureNames(r: Run, t: Table, b: Bucket, env: Env)
    ensures var r' := Advance(r, t, b, env).0;
            |t| > 0 && Aged(t, env) && r'.pc.Failed? && r'.pc.why in {EmptyTable, NotFrozen} ==> r' == r
  {
    hide LoopHead, Extended, ChunkEnd, Range, ManifestOf, Smallest, Largest, Holds;
    match r.pc {
      case CompareData(m) => LoopHeadFailure(Extended(r.work, m, false), env.now);
      case PutManifest(_, rows) =>
        LoopHeadFailure(Extended(r.work, ManifestOf(r.work.next, ChunkEnd(r.work), rows), true), env.now);
      case TakeSnapshot =>
        if |t| > 0 {
          var lo, hi := Smallest(t.Keys), Largest(t.Keys);
          LoopHeadFailure(Work(r.work.chunkRows, t, lo, hi, lo, [], {}), env.now);
        }
      case _ =>
    }
  }

  lemma LoopHeadFailure(w: Work, now: nat)
    ensures LoopHead(w, now).pc.Failed? ==> LoopHead(w, now).pc.why == CountMismatch
  {
    hide RowsIn;
  }

  lemma {:induction false} SoloFinishes(r: Run, t: Table, b: Bucket, env: Env)
    requires InBounds(r) && Alone(r, b) && Admitted(r, t, env) && BucketOk(b, t, Frozen) && RunOk(r, b, t, Frozen)
    ensures var (r', b') := Solo(r, t, b, env);
      && r'.pc.Finished? && CompleteKey in b' && b'[CompleteKey] == CompleteFile(r'.pc.result)
      && BucketOk(b', t, Frozen) && Published(r'.pc.result, b', t, Frozen)
    decreases Stage(r), IdsLeft(r), OpsLeft(r)
  {
    if Live(r) {
      AdvanceDescends(r, t, b, env);
      AdvanceKeeps(r, t, b, env, Frozen);
      KeptRunOk(r, t, b, env);
      if CompleteKey in b { CompleteReadable(b, t, Frozen); }
      AdvanceAlone(r, t, b, env);
      AdvanceAdmitted(r, t, b, env);
      hide BucketOk, RunOk, Advance, Stage, IdsLeft, OpsLeft, Alone, Admitted, InBounds, Kept;
      var (r', b') := Advance(r, t, b, env);
      SoloFinishes(r', t, b', env);
    }
    hide BucketOk, Published, Advance;
  }

  /**
   * From whatever earlier runs left behind on a frozen table, one undisturbed run with any chunk size finishes, and
   * then COMPLETE.json is stored and valid.
   */
  lemma InterruptedArchiveCompletes(t: Table, actions: seq<Action>, chunkRows: nat, env: Env)
    requires Runs(Fresh(t), actions, Frozen) && |t| > 0 && Aged(t, env) && chunkRows >= 1000
    ensures var (r, b) := Solo(NewRun(chunkRows), t, Exec(Fresh(t), actions, Frozen).bucket, env);
      && r.pc.Finished? && CompleteKey in b && b[CompleteKey] == CompleteFile(r.pc.result)
      && Published(r.pc.result, b, t, Frozen)
  {
    Reachable(t, actions, Frozen);
    FrozenTable(t, actions);
    hide BucketOk, Published, Runs, Exec, Aged;
    SoloFinishes(NewRun(chunkRows), t, Exec(Fresh(t), actions, Frozen).bucket, env);
  }
}
