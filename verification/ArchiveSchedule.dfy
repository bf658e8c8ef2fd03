// Runs that interleave on a frozen table: whoever ends, the archive is complete, and enough turns end a run.
module ArchiveSchedule {
  import opened ArchiveProtocol
  import opened ArchiveInvariant
  import opened ArchiveSafety
  import opened ArchiveSolo

  /** Whenever some run looks, the newest row is old enough. */
  ghost predicate AllAged(t: Table, actions: seq<Action>)
    requires |t| > 0
  {
    forall i :: 0 <= i < |actions| && actions[i].Do? ==> Aged(t, actions[i].env)
  }

  /** No run was turned away by the guards of the snapshot. */
  ghost predicate NobodyTurnedAway(s: System) {
    forall i :: i in s.runs && s.runs[i].pc.Failed? ==> s.runs[i].pc.why !in {EmptyTable, NotFrozen}
  }

  lemma {:induction false} AgedRunsAreAdmitted(s: System, actions: seq<Action>)
    requires Runs(s, actions, Frozen) && |s.table| > 0 && AllAged(s.table, actions) && NobodyTurnedAway(s)
    ensures NobodyTurnedAway(Exec(s, actions, Frozen))
    decreases |actions|
  {
    if actions != [] {
      var a := actions[0];
      if a.Do? { FailureNames(s.runs[a.run], s.table, s.bucket, a.env); }
      TableStays(s, a, Frozen);
      hide Advance, Aged;
      AgedRunsAreAdmitted(Step(s, a), actions[1..]);
    }
  }

  /** Once any run has ended, successfully or on another run's COMPLETE.json, the archive is complete. */
  lemma EndedMeansComplete(t: Table, actions: seq<Action>, i: nat)
    requires Runs(Fresh(t), actions, Frozen) && |t| > 0 && AllAged(t, actions)
    requires var s := Exec(Fresh(t), actions, Frozen); i in s.runs && !Live(s.runs[i])
    ensures IsComplete(Exec(Fresh(t), actions, Frozen).bucket, t)
  {
    var s := Exec(Fresh(t), actions, Frozen);
    AgedRunsAreAdmitted(Fresh(t), actions);
    Reachable(t, actions, Frozen);
    FrozenTable(t, actions);
    hide Runs, Exec, Tiles, RowsIn, BucketOk, Archives;
    assert RunOk(s.runs[i], s.bucket, t, Frozen);
    assert CompleteKey in s.bucket;
    CompleteReadable(s.bucket, t, Frozen);
    var j := PublishedArchives(s.bucket[CompleteKey].complete, s.bucket, t, Frozen, 0);
  }

  /** COMPLETE.json is stored and archives the whole table. */
  ghost predicate IsComplete(b: Bucket, t: Table) {
    && CompleteKey in b && b[CompleteKey].CompleteFile?
    && var c := b[CompleteKey].complete; Archives(c, b, t) && Bounds(t, c.minId, c.maxId) && c.snapshotCount == |t|
  }

  // --- enough turns ----------------------------------------------------------------------------

  /** Ids between the ends of the table. */
  ghost function Span(t: Table): nat
    requires |t| > 0
  {
    Largest(t.Keys) + 1 - Smallest(t.Keys)
  }

  /** No run can have more operations in front of it than this. */
  ghost function Rank(r: Run, span: nat): nat {
    Stage(r) * (10 * span + 10) + 10 * IdsLeft(r) + OpsLeft(r)
  }

  lemma RunInBounds(r: Run, b: Bucket, t: Table)
    requires RunOk(r, b, t, Frozen) && |t| > 0
    ensures InBounds(r) && IdsLeft(r) <= Span(t) && OpsLeft(r) <= 9
  {
    hide Tiles, CoversSnapshot, AllStored, Fits, Submap, Published, Publishing;
    assert Smallest(t.Keys) in t.Keys && Largest(t.Keys) in t.Keys;
  }

  /** A live run comes nearer its end with each of its turns, by a number that only the table bounds. */
  lemma TurnLowersRank(r: Run, t: Table, b: Bucket, env: Env)
    requires RunOk(r, b, t, Frozen) && BucketOk(b, t, Frozen) && |t| > 0 && Live(r)
    ensures Rank(Advance(r, t, b, env).0, Span(t)) < Rank(r, Span(t))
  {
    hide Advance, RunOk, BucketOk, Kept, Stage, IdsLeft, OpsLeft, Span, Smallest, Largest, InBounds;
    RunInBounds(r, b, t);
    AdvanceDescends(r, t, b, env);
    AdvanceKeeps(r, t, b, env, Frozen);
    KeptRunOk(r, t, b, env);
    var r' := Advance(r, t, b, env).0;
    RunInBounds(r', Advance(r, t, b, env).1, t);
    Flatten(Stage(r'), IdsLeft(r'), OpsLeft(r'), Stage(r), IdsLeft(r), OpsLeft(r), Span(t));
  }

  lemma Flatten(a': nat, b': nat, c': nat, a: nat, b: nat, c: nat, span: nat)
    requires b' <= span && c' <= 9
    requires a' < a || (a' == a && b' < b) || (a' == a && b' == b && c' < c)
    ensures a' * (10 * span + 10) + 10 * b' + c' < a * (10 * span + 10) + 10 * b + c
  {
    var k := 10 * span + 10;
    if a' < a {
      assert (a' + 1) * k <= a * k;
      assert (a' + 1) * k == a' * k + k;
    }
  }

  /** Turns of run i among the actions. */
  function Turns(actions: seq<Action>, i: nat): nat {
    if actions == [] then 0 else (if actions[0].Do? && actions[0].run == i then 1 else 0) + Turns(actions[1..], i)
  }

  predicate NeverKilled(actions: seq<Action>, i: nat) {
    forall j :: 0 <= j < |actions| ==> actions[j] != Kill(i)
  }

  /** Whatever the others do, a run that is not killed and has as many turns as its rank has ended. */
  lemma {:induction false} EnoughTurnsEnd(s: System, actions: seq<Action>, i: nat)
    requires Inv(s, Frozen) && Runs(s, actions, Frozen) && |s.table| > 0 && i in s.runs && NeverKilled(actions, i)
    requires Live(s.runs[i]) ==> Turns(actions, i) >= Rank(s.runs[i], Span(s.table))
    ensures i in Exec(s, actions, Frozen).runs && !Live(Exec(s, actions, Frozen).runs[i])
    decreases |actions|
  {
    if actions == [] {
      if Live(s.runs[i]) { LiveRank(s.runs[i], Span(s.table)); }
    } else {
      var a := actions[0];
      var s' := Step(s, a);
      StepKeeps(s, a, Frozen);
      TableStays(s, a, Frozen);
      if a.Do? && a.run == i {
        if Live(s.runs[i]) {
          TurnLowersRank(s.runs[i], s.table, s.bucket, a.env);
        } else {
          RestsWhenDone(s.runs[i], s.table, s.bucket, a.env);
        }
      } else {
        assert s'.runs[i] == s.runs[i];
      }
      assert NeverKilled(actions[1..], i);
      hide Inv, Advance, Rank, Span;
      EnoughTurnsEnd(s', actions[1..], i);
    }
  }

  lemma LiveRank(r: Run, span: nat)
    requires Live(r)
    ensures Rank(r, span) > 0
  {
    assert Stage(r) >= 1;
    assert Stage(r) * (10 * span + 10) >= 10 * span + 10;
  }

  /**
   * On a frozen table any schedule, with any other runs and kills, that gives one run enough turns completes the
   * archive; how many is bounded by the table alone.
   */
  lemma EnoughTurnsComplete(t: Table, before: seq<Action>, after: seq<Action>, i: nat)
    requires |t| > 0 && Runs(Fresh(t), before, Frozen) && AllAged(t, before) && AllAged(t, after)
    requires var s := Exec(Fresh(t), before, Frozen);
             Runs(s, after, Frozen) && i in s.runs && NeverKilled(after, i) && Turns(after, i) >= 50 * (Span(t) + 1)
    ensures IsComplete(Exec(Exec(Fresh(t), before, Frozen), after, Frozen).bucket, t)
  {
    var s := Exec(Fresh(t), before, Frozen);
    Reachable(t, before, Frozen);
    FrozenTable(t, before);
    RunRank(s, i);
    EnoughTurnsEnd(s, after, i);
    RunsTogether(Fresh(t), before, after);
    hide Inv, Runs, Exec, IsComplete, Span;
    assert AllAged(t, before + after);
    EndedMeansComplete(t, before + after, i);
  }

  lemma RunRank(s: System, i: nat)
    requires Inv(s, Frozen) && |s.table| > 0 && i in s.runs
    ensures Rank(s.runs[i], Span(s.table)) <= 50 * (Span(s.table) + 1)
  {
    RunInBounds(s.runs[i], s.bucket, s.table);
    hide RunOk, BucketOk, Span, IdsLeft, OpsLeft;
    assert Stage(s.runs[i]) <= 4;
    var k := 10 * Span(s.table) + 10;
    assert Stage(s.runs[i]) * k <= 4 * k;
  }

  lemma {:induction false} RunsTogether(s: System, before: seq<Action>, after: seq<Action>)
    requires Runs(s, before, Frozen) && Runs(Exec(s, before, Frozen), after, Frozen)
    ensures Runs(s, before + after, Frozen)
    ensures Exec(s, before + after, Frozen) == Exec(Exec(s, before, Frozen), after, Frozen)
    decreases |before|
  {
    hide Step;
    if before == [] {
      assert before + after == after;
    } else {
      assert (before + after)[0] == before[0] && (before + after)[1..] == before[1..] + after;
      RunsTogether(Step(s, before[0]), before[1..], after);
    }
  }
}
