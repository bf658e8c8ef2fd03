// When overlapping runs can leave a manifest beside other data: exactly when a row appears between two others.
module ArchiveOverlap {
  import opened ArchiveProtocol
  import opened ArchiveInvariant
  import opened ArchiveSafety
  import opened ArchiveStories

  /** Rows other than `id` are never added, and every run asks for the same age of the newest row. */
  ghost predicate OnlyAdds(actions: seq<Action>, id: nat, frozenFor: nat) {
    forall i :: 0 <= i < |actions| ==>
      (actions[i].AddRow? ==> actions[i].id == id) && (actions[i].Do? ==> actions[i].env.frozenFor == frozenFor)
  }

  /** A manifest is stored beside other data than it describes, or beside none. */
  ghost predicate Broken(b: Bucket) {
    exists idStart, idEnd :: ManifestKey(idStart, idEnd) in b && !Paired(b, idStart, idEnd)
  }

  /** Some execution on the table, with any runs and kills and with this row added at some time, breaks a pair. */
  ghost predicate CanBreak(t: Table, id: nat, frozenFor: nat) {
    exists actions ::
      && Runs(Fresh(t), actions, Unrestricted) && OnlyAdds(actions, id, frozenFor)
      && Broken(Exec(Fresh(t), actions, Unrestricted).bucket)
  }

  /** Where the one row lies outside, every execution is one of the outward discipline. */
  lemma {:induction false} RunsOutward(t: Table, id: nat, frozenFor: nat, s: System, actions: seq<Action>)
    requires Runs(s, actions, Unrestricted) && OnlyAdds(actions, id, frozenFor)
    requires !Between(t, id) && (s.table == t || id in s.table)
    ensures Runs(s, actions, Outward) && Exec(s, actions, Outward) == Exec(s, actions, Unrestricted)
    decreases |actions|
  {
    hide Between, Advance;
    if actions != [] {
      assert Allowed(s, actions[0], Outward);
      RunsOutward(t, id, frozenFor, Step(s, actions[0]), actions[1..]);
    }
  }

  lemma OutwardKeepsPairs(t: Table, actions: seq<Action>)
    requires Runs(Fresh(t), actions, Outward)
    ensures !Broken(Exec(Fresh(t), actions, Outward).bucket)
  {
    var s := Exec(Fresh(t), actions, Outward);
    Reachable(t, actions, Outward);
    hide Runs, Exec;
    forall idStart, idEnd | ManifestKey(idStart, idEnd) in s.bucket ensures Paired(s.bucket, idStart, idEnd) {
      assert ObjectOk(ManifestKey(idStart, idEnd), s.bucket, s.table, Outward);
    }
  }

  /**
   * One run exports before the row arrives and one after it, both with the data key still free; the first stores and
   * verifies its pair, then the second sends its own data. One range over the whole table is enough.
   */
  lemma BreaksWhenBetween(t: Table, id: nat, frozenFor: nat)
    requires id !in t && Between(t, id)
    ensures CanBreak(t, id, frozenFor)
  {
    var lo, hi := Smallest(t.Keys), Largest(t.Keys);
    var env := Env(t[hi].at + frozenFor, frozenFor);
    var chunkRows := if hi - lo + 1 < 1000 then 1000 else hi - lo + 1;
    var t' := t[id := Row("", env.now)];
    assert Bounds(t, lo, hi) && Bounds(t', lo, hi) && t'[hi] == t[hi];
    WholeRange(chunkRows, t, lo, hi);
    WholeRange(chunkRows, t', lo, hi);
    hide CanBreak, Range, Bounds, ChunkEnd;
    SecondOverwrites(Story(t, Unrestricted, chunkRows, env, {id}), id, lo, hi);
  }

  /** One range over the whole table, the same with and without the row. */
  ghost predicate OneRange(story: Story, id: nat, lo: nat, hi: nat) {
    var t := story.table;
    var t' := t[id := Row("", story.env.now)];
    && story.mode.Unrestricted? && story.chunkRows >= 1000 && story.added == {id} && id !in t
    && Bounds(t, lo, hi) && Bounds(t', lo, hi) && t'[hi] == t[hi]
    && t[hi].at + story.env.frozenFor <= story.env.now
    && ChunkEnd(Begun(story.chunkRows, t, lo, hi)) == hi + 1 && Range(t, lo, hi + 1) == t
    && ChunkEnd(Begun(story.chunkRows, t', lo, hi)) == hi + 1 && Range(t', lo, hi + 1) == t'
  }

  lemma SecondOverwrites(story: Story, id: nat, lo: nat, hi: nat)
    requires OneRange(story, id, lo, hi)
    ensures CanBreak(story.table, id, story.env.frozenFor)
  {
    hide Played, Range, ManifestOf, Bounds, ChunkEnd, CanBreak, Broken, Paired;
    var t, t' := story.table, story.table[id := Row("", story.env.now)];
    var as3, s3 := BothExport(story, id, lo, hi);
    var as4, s4 := StoresPair(story, as3, s3, 0, Begun(story.chunkRows, t, lo, hi), t);
    assert 1 in Others(s3, 0) && s4.runs[1] == Others(s4, 0)[1];
    var as5 := Then(story, as4, s4, Do(1, story.env));
    OverwritesData(s4, t, t', lo, hi, story.chunkRows, story.env);
    PlayedBreaks(story, as5, Step(s4, Do(1, story.env)), id);
  }

  /** One run has exported the table without the row, the other with it, and both are about to send. */
  lemma BothExport(story: Story, id: nat, lo: nat, hi: nat) returns (actions: seq<Action>, s: System)
    requires OneRange(story, id, lo, hi)
    ensures var t := story.table;
            var t' := t[id := Row("", story.env.now)];
            && Played(story, actions, s) && s.bucket == map[]
            && At(s, 0, PutData(Send, t), Begun(story.chunkRows, t, lo, hi))
            && At(s, 1, PutData(Send, t'), Begun(story.chunkRows, t', lo, hi))
  {
    hide Played, Range, Bounds, ChunkEnd;
    var t := story.table;
    PlayedNothing(story);
    var as1, s1 := StartsAndExports(story, [], Fresh(t), 0, lo, hi);
    assert 1 !in Others(s1, 0);
    var as2 := Adds(story, as1, s1, id, Row("", story.env.now));
    actions, s := StartsAndExports(story, as2, s1.(table := t[id := Row("", story.env.now)]), 1, lo, hi);
    assert 0 in Others(s, 1) && s.runs[0] == Others(s, 1)[0];
  }

  lemma WholeRange(chunkRows: nat, t: Table, lo: nat, hi: nat)
    requires Bounds(t, lo, hi) && chunkRows >= hi - lo + 1
    ensures ChunkEnd(Begun(chunkRows, t, lo, hi)) == hi + 1 && Range(t, lo, hi + 1) == t
  {
  }

  lemma OverwritesData(s: System, t: Table, t': Table, lo: nat, hi: nat, chunkRows: nat, env: Env)
    requires ChunkEnd(Begun(chunkRows, t', lo, hi)) == hi + 1 && t != t'
    requires At(s, 1, PutData(Send, t'), Begun(chunkRows, t', lo, hi))
    requires ManifestKey(lo, hi + 1) in s.bucket
             && s.bucket[ManifestKey(lo, hi + 1)] == ManifestFile(ManifestOf(lo, hi + 1, t))
    ensures Broken(Step(s, Do(1, env)).bucket)
  {
    var b := Step(s, Do(1, env)).bucket;
    assert b == s.bucket[DataKey(lo, hi + 1) := DataFile(t')];
    assert ManifestKey(lo, hi + 1) in b && !Paired(b, lo, hi + 1);
  }

  lemma PlayedBreaks(story: Story, actions: seq<Action>, s: System, id: nat)
    requires Played(story, actions, s) && story.mode.Unrestricted? && story.added == {id} && Broken(s.bucket)
    ensures CanBreak(story.table, id, story.env.frozenFor)
  {
    assert OnlyAdds(actions, id, story.env.frozenFor) by {
      forall i | 0 <= i < |actions|
        ensures actions[i].AddRow? ==> actions[i].id == id
        ensures actions[i].Do? ==> actions[i].env.frozenFor == story.env.frozenFor
      {
        assert Tells(story, actions[i]);
      }
    }
    hide Broken, OnlyAdds;
  }

  /**
   * One more row can break a pair, by some overlap of runs, exactly when it appears between two rows that are there;
   * this holds whatever age the newest row must have.
   */
  lemma OverlapBreaksExactly(t: Table, id: nat, frozenFor: nat)
    requires id !in t
    ensures CanBreak(t, id, frozenFor) <==> Between(t, id)
  {
    if Between(t, id) {
      BreaksWhenBetween(t, id, frozenFor);
    } else {
      forall actions | Runs(Fresh(t), actions, Unrestricted) && OnlyAdds(actions, id, frozenFor)
        ensures !Broken(Exec(Fresh(t), actions, Unrestricted).bucket)
      {
        RunsOutward(t, id, frozenFor, Fresh(t), actions);
        OutwardKeepsPairs(t, actions);
      }
      hide Broken, Runs, Exec, OnlyAdds;
    }
  }
}
