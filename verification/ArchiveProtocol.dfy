// `archive_table` as a step machine: every bucket operation and every database read of a run is one step, any number of
// runs interleave, any run can be killed between two steps, and rows can be added to the table.
module ArchiveProtocol {
  import opened Prelude

  /** A row, and the time its clock column carries. */
  datatype Row = Row(content: string, at: nat)

  type Table = map<nat, Row>

  /** Rows of the id range [idStart, idEnd), which is what one COPY of that range writes. */
  function Range(t: Table, idStart: nat, idEnd: nat): Table {
    map id | id in t && idStart <= id < idEnd :: t[id]
  }

  // --- what the bucket holds -------------------------------------------------------------------

  datatype Key = DataKey(idStart: nat, idEnd: nat) | ManifestKey(idStart: nat, idEnd: nat) | CompleteKey

  datatype Object = DataFile(rows: Table) | ManifestFile(manifest: Manifest) | CompleteFile(complete: Complete)

  /** A digest stands for the bytes it was taken of: the hash is read as injective. */
  datatype Digest = Sha256(of: Object)

  datatype Manifest = Manifest(idStart: nat, idEnd: nat, rowCount: nat, sha: Digest)

  datatype Chunk = Chunk(idStart: nat, idEnd: nat, rowCount: nat, sha: Digest)

  datatype Complete = Complete(snapshotCount: nat, minId: nat, maxId: nat, chunkRows: nat, chunks: seq<Chunk>,
                               completedAt: nat)

  type Bucket = map<Key, Object>

  function ManifestOf(idStart: nat, idEnd: nat, rows: Table): Manifest {
    Manifest(idStart, idEnd, |rows|, Sha256(DataFile(rows)))
  }

  function RowsIn(chunks: seq<Chunk>): nat {
    if chunks == [] then 0 else RowsIn(Init(chunks)) + Last(chunks).rowCount
  }

  // --- one run ---------------------------------------------------------------------------------

  /** The three operations of `put_once`: look, send when absent, read back and compare. */
  datatype Phase = Look | Send | ReadBack

  datatype Why =
    | EmptyTable
    | NotFrozen
    | WrongRange
    | StoredMismatch
    | DataMismatch
    | ManifestMismatch
    | CountMismatch
    | CompleteMismatch

  datatype Pc =
    | CheckComplete
    | ReadComplete
    | TakeSnapshot
    | CheckManifest
    | ReadManifest
    | CompareData(manifest: Manifest)
    | Export
    | PutData(phase: Phase, rows: Table)
    | PutManifest(phase: Phase, rows: Table)
    | PutComplete(phase: Phase, complete: Complete)
    | Finished(result: Complete)
    | Failed(why: Why)

  /** `next` is the first id not yet in a chunk; `resumed` are the chunks that were found stored. */
  datatype Work = Work(chunkRows: nat, snapshot: Table, minId: nat, maxId: nat, next: nat, chunks: seq<Chunk>,
                       resumed: set<nat>)

  datatype Run = Run(pc: Pc, work: Work)

  /** What a step takes from outside: the clock, and how old the newest row has to be. */
  datatype Env = Env(now: nat, frozenFor: nat)

  /** The row with the greatest id was written long enough ago. */
  ghost predicate Aged(t: Table, env: Env)
    requires |t| > 0
  {
    t[Largest(t.Keys)].at + env.frozenFor <= env.now
  }

  function NewRun(chunkRows: nat): Run {
    Run(CheckComplete, Work(chunkRows, map[], 0, 0, 0, [], {}))
  }

  predicate Live(r: Run) {
    !r.pc.Finished? && !r.pc.Failed?
  }

  function ChunkEnd(w: Work): nat {
    if w.next + w.chunkRows < w.maxId + 1 then w.next + w.chunkRows else w.maxId + 1
  }

  function CompleteOf(w: Work, now: nat): Complete {
    Complete(|w.snapshot|, w.minId, w.maxId, w.chunkRows, w.chunks, now)
  }

  /** Head of the loop over ranges: another chunk, or the row count check and then COMPLETE.json. */
  function LoopHead(w: Work, now: nat): Run {
    if w.next <= w.maxId then Run(CheckManifest, w)
    else if RowsIn(w.chunks) != |w.snapshot| then Run(Failed(CountMismatch), w)
    else Run(PutComplete(Look, CompleteOf(w, now)), w)
  }

  /** The work after a verified chunk. */
  function Extended(w: Work, m: Manifest, uploaded: bool): Work {
    w.(next := ChunkEnd(w), chunks := w.chunks + [Chunk(w.next, ChunkEnd(w), m.rowCount, m.sha)],
       resumed := if uploaded then w.resumed else w.resumed + {|w.chunks|})
  }

  predicate Holds(b: Bucket, k: Key, o: Object) {
    k in b && Sha256(b[k]) == Sha256(o)
  }

  ghost function Smallest(s: set<nat>): (m: nat)
    requires s != {}
    ensures m in s && forall x :: x in s ==> m <= x
  {
    var x :| x in s;
    assert forall y :: y in s ==> y == x || y in s - {x};
    if s - {x} == {} then x
    else
      var m := Smallest(s - {x});
      if x < m then x else m
  }

  ghost function Largest(s: set<nat>): (m: nat)
    requires s != {}
    ensures m in s && forall x :: x in s ==> x <= m
  {
    var x :| x in s;
    assert forall y :: y in s ==> y == x || y in s - {x};
    if s - {x} == {} then x
    else
      var m := Largest(s - {x});
      if x > m then x else m
  }

  function Stored(b: Bucket): Pc {
    if CompleteKey in b && b[CompleteKey].CompleteFile? then Finished(b[CompleteKey].complete)
    else Failed(StoredMismatch)
  }

  /** One operation of a run, with the bucket it leaves. */
  ghost function Advance(r: Run, t: Table, b: Bucket, env: Env): (Run, Bucket) {
    var w, end := r.work, ChunkEnd(r.work);
    var dataKey, manifestKey := DataKey(w.next, end), ManifestKey(w.next, end);
    match r.pc
    case CheckComplete => (r.(pc := if CompleteKey in b then ReadComplete else TakeSnapshot), b)
    case ReadComplete => (r.(pc := Stored(b)), b)
    case TakeSnapshot =>
      if |t| == 0 then (r.(pc := Failed(EmptyTable)), b)
      else if !Aged(t, env) then (r.(pc := Failed(NotFrozen)), b)
      else
        var lo, hi := Smallest(t.Keys), Largest(t.Keys);
        (LoopHead(Work(w.chunkRows, t, lo, hi, lo, [], {}), env.now), b)
    case CheckManifest => (r.(pc := if manifestKey in b then ReadManifest else Export), b)
    case ReadManifest =>
      if manifestKey !in b || !b[manifestKey].ManifestFile? then (r.(pc := Failed(StoredMismatch)), b)
      else
        var m := b[manifestKey].manifest;
        if (m.idStart, m.idEnd) != (w.next, end) then (r.(pc := Failed(WrongRange)), b)
        else (r.(pc := CompareData(m)), b)
    case CompareData(m) =>
      if dataKey in b && Sha256(b[dataKey]) == m.sha then (LoopHead(Extended(w, m, false), env.now), b)
      else (r.(pc := Failed(StoredMismatch)), b)
    case Export => (r.(pc := PutData(Look, Range(t, w.next, end))), b)
    case PutData(Look, rows) => (r.(pc := PutData(if dataKey in b then ReadBack else Send, rows)), b)
    case PutData(Send, rows) => (r.(pc := PutData(ReadBack, rows)), b[dataKey := DataFile(rows)])
    case PutData(ReadBack, rows) =>
      (r.(pc := if Holds(b, dataKey, DataFile(rows)) then PutManifest(Look, rows) else Failed(DataMismatch)), b)
    case PutManifest(Look, rows) => (r.(pc := PutManifest(if manifestKey in b then ReadBack else Send, rows)), b)
    case PutManifest(Send, rows) =>
      (r.(pc := PutManifest(ReadBack, rows)), b[manifestKey := ManifestFile(ManifestOf(w.next, end, rows))])
    case PutManifest(ReadBack, rows) =>
      var m := ManifestOf(w.next, end, rows);
      (if Holds(b, manifestKey, ManifestFile(m)) then LoopHead(Extended(w, m, true), env.now)
       else r.(pc := Failed(ManifestMismatch)), b)
    case PutComplete(Look, c) => (r.(pc := PutComplete(if CompleteKey in b then ReadBack else Send, c)), b)
    case PutComplete(Send, c) => (r.(pc := PutComplete(ReadBack, c)), b[CompleteKey := CompleteFile(c)])
    case PutComplete(ReadBack, c) =>
      (r.(pc := if Holds(b, CompleteKey, CompleteFile(c)) then Finished(c) else Failed(CompleteMismatch)), b)
    case Finished(_) => (r, b)
    case Failed(_) => (r, b)
  }

  // --- the whole system ------------------------------------------------------------------------

  datatype System = System(table: Table, bucket: Bucket, runs: map<nat, Run>)

  datatype Action =
    | AddRow(id: nat, row: Row)
    | Start(run: nat, chunkRows: nat)
    | Do(run: nat, env: Env)
    | Kill(run: nat)

  ghost predicate Enabled(s: System, a: Action) {
    match a
    case AddRow(id, _) => id !in s.table
    case Start(i, chunkRows) => i !in s.runs && chunkRows >= 1000
    case Do(i, _) => i in s.runs
    case Kill(i) => i in s.runs
  }

  ghost function Step(s: System, a: Action): System
    requires Enabled(s, a)
  {
    match a
    case AddRow(id, row) => s.(table := s.table[id := row])
    case Start(i, chunkRows) => s.(runs := s.runs[i := NewRun(chunkRows)])
    case Do(i, env) =>
      var (r, b) := Advance(s.runs[i], s.table, s.bucket, env);
      s.(bucket := b, runs := s.runs[i := r])
    case Kill(i) => s.(runs := s.runs - {i})
  }

  /** Some rows of the table have smaller and some have greater ids. */
  ghost predicate Between(t: Table, id: nat) {
    exists a, b :: a in t && b in t && a < id < b
  }

  /**
   * Disciplines: no row is ever added; or rows are added only below or above the ids that are there; or no run starts
   * while another is live; or none of these.
   */
  datatype Mode = Frozen | Outward | Serial | Unrestricted

  ghost predicate Allowed(s: System, a: Action, mode: Mode) {
    && Enabled(s, a)
    && (mode.Frozen? ==> !a.AddRow?)
    && (mode.Outward? && a.AddRow? ==> !Between(s.table, a.id))
    && (mode.Serial? && a.Start? ==> forall i :: i in s.runs ==> !Live(s.runs[i]))
  }

  ghost predicate Runs(s: System, actions: seq<Action>, mode: Mode)
    decreases |actions|
  {
    actions != [] ==> Allowed(s, actions[0], mode) && Runs(Step(s, actions[0]), actions[1..], mode)
  }

  ghost function Exec(s: System, actions: seq<Action>, mode: Mode): System
    requires Runs(s, actions, mode)
    decreases |actions|
  {
    if actions == [] then s else Exec(Step(s, actions[0]), actions[1..], mode)
  }

  function Fresh(t: Table): System {
    System(t, map[], map[])
  }
}
