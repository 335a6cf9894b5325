/** Merging the same side into a record a second time (crates/ft-pr/src/merge.rs). */
module Remerge {
  import opened Wrappers
  import opened Kind
  import opened Records
  import opened Append
  import opened Verify
  import opened Compact
  import opened Relink
  import opened CompactProperties
  import opened Commitment
  import opened Sorting
  import opened Merge
  import opened HistoryMerge
  import opened MergeSymmetry
  import opened BodyMerge
  import opened Runs

  /** Two first entries are the same when they say the same and were hashed against the same content. */
  lemma SameFirstEntry(content: Content, m: seq<HistoryEntry>, t: seq<HistoryEntry>)
    requires m != [] && t != [] && HashedFor(content, m) && Linked(t) && Committed(t)
    ensures t[0].toHash.Digest?
    ensures m[0] == t[0] <==> t[0].toHash.content == content && m[0].Bare() == t[0].Bare()
  {
    assert PinnedAt(content, m, 0) && CommittedAt(t, 0);
    assert m[..0] == [] && t[..0] == [];
    assert m[..1] == [m[0]] && t[..1] == [t[0]];
    assert OpenTail([m[0]]) == [m[0].(toHash := Empty)] && OpenTail([t[0]]) == [t[0].(toHash := Empty)];
    assert t[0].fromHash == Empty;
  }

  lemma MergedIsHashed(base: Option<RecordState>, o: RecordState, t: RecordState)
    requires Committed(o.history) && Committed(t.history)
    ensures var m := MergedRecord(base, o, t);
            HashedFor(m.content, m.history) && |m.history| >= |t.history|
  {
    hide MergedContent, MergedHistory, OpsSum;
    MergedHistoryCounts(o.history, t.history);
    hide PinnedAt, Committed;
    RelinkedShape(MergedContent(base, o.content, t.content), MergedHistory(o.history, t.history));
  }

  /** Nothing of `t` is new to `m`: it is the first part of it, hashed against the content `m` now has. */
  ghost predicate Contained(t: seq<HistoryEntry>, content: Content, m: seq<HistoryEntry>) {
    |t| <= |m| && HashedFor(content, t) && BareAll(t) == BareAll(m[..|t|])
  }

  lemma ContainedIsPrefix(t: seq<HistoryEntry>, content: Content, m: seq<HistoryEntry>)
    requires HashedFor(content, m)
    ensures Contained(t, content, m) <==> t <= m
  {
    hide PinnedAt;
    if |t| <= |m| {
      HashedForPrefix(content, m, |t|);
      hide HashedFor;
      if Contained(t, content, m) {
        HashedForUnique(content, t, m[..|t|]);
      }
      assert t <= m ==> m[..|t|] == t;
    }
  }

  lemma InOrderStays(m: seq<HistoryEntry>)
    requires Nondecreasing(Times(m))
    ensures StableSort(m, ByTimestamp) == m
  {
    assert forall i :: 0 <= i < |m| ==> Times(m)[i] == m[i].timestamp;
    SortOfSorted(m, ByTimestamp);
  }

  /** Merging the same side in again brings no entry exactly if all of its entries are there, with the hashes they
      have. */
  lemma RemergeAddsNothing(base: Option<RecordState>, o: RecordState, t: RecordState)
    requires Sound(o) && Sound(t)
    ensures var m := MergedRecord(base, o, t);
            && (MergedHistory(m.history, t.history) == m.history <==> Contained(t.history, m.content, m.history))
            && (|MergedHistory(m.history, t.history)| == |m.history| <==> Contained(t.history, m.content, m.history))
  {
    hide MergedRecord, MergedHistory, OpsSum, Committed, Verifies, HashedFor, Contained;
    var m := MergedRecord(base, o, t);
    MergeIsSound(base, o, t);
    MergedIsHashed(base, o, t);
    ContainedIsPrefix(t.history, m.content, m.history);
    MergedHistoryCounts(m.history, t.history);
    CommonPrefixIsLongest(m.history, t.history, |t.history|);
    assert t.history[..|t.history|] == t.history;
    if t.history <= m.history {
      MergedTimes(base, o, t);
      PrefixAddsNothing(m.history, t.history);
    }
  }

  lemma MergedTimes(base: Option<RecordState>, o: RecordState, t: RecordState)
    ensures Nondecreasing(Times(MergedRecord(base, o, t).history))
  {
    hide MergedRecord, MergedHistory, Nondecreasing, OpsSum, Gather;
    MergedRecordHistory(base, o, t);
    GatherBare(MergedRecord(base, o, t).history, MergedHistory(o.history, t.history));
    MergedIsSorted(o.history, t.history);
  }

  lemma PrefixAddsNothing(m: seq<HistoryEntry>, t: seq<HistoryEntry>)
    requires Committed(m) && Committed(t) && t <= m && Nondecreasing(Times(m))
    ensures MergedHistory(m, t) == m
  {
    hide StableSort, Deduped, Committed, Nondecreasing;
    MergeDropsCommonPrefix(m, t);
    CommonPrefixIsLongest(m, t, |t|);
    assert m + t[CommonPrefix(m, t)..] == m;
    InOrderStays(m);
  }

  /** The whole record stays as it is, whatever base the second merge has, exactly if its history does and that base
      asks for no other value of the six fields. */
  lemma RemergedRecord(base: Option<RecordState>, again: Option<RecordState>, o: RecordState, t: RecordState)
    requires Sound(o) && Sound(t)
    ensures var m := MergedRecord(base, o, t);
            MergedRecord(again, m, t) == m <==>
            Contained(t.history, m.content, m.history) && AllSteady(again, m.content, t.content)
  {
    var m := MergedRecord(base, o, t);
    RemergeAddsNothing(base, o, t);
    MergedRecordBody(base, o, t);
    MergedRecordHistory(again, m, t);
    ContentRemerge(base, again, o.content, t.content);
    hide Sound, HashedFor, Contained, AllSteady, MergedContent;
    if MergedHistory(m.history, t.history) != m.history {
      assert |BareAll(MergedRecord(again, m, t).history)| == |MergedHistory(m.history, t.history)|;
    } else if MergedContent(again, m.content, t.content) == m.content {
      MergedAgainIs(base, again, o, t, m);
    }
  }

  lemma MergedAgainIs(base: Option<RecordState>, again: Option<RecordState>, o: RecordState, t: RecordState,
                      m: RecordState)
    requires m == MergedRecord(base, o, t) && MergedHistory(m.history, t.history) == m.history
    requires MergedContent(again, m.content, t.content) == m.content
    ensures MergedRecord(again, m, t) == m
  {
    hide MergedHistory, MergedContent, RelinkedHistory;
    var c, h := MergedContent(base, o.content, t.content), MergedHistory(o.history, t.history);
    RelinkIsIdempotent(RecordState(c, h, o.stateHash, o.prevStateHash));
  }

  /** Against the branch's own tip, as git merges it again, against the first base or against none, the history alone
      decides. */
  lemma RemergedFromTip(base: Option<RecordState>, o: RecordState, t: RecordState, again: Option<RecordState>)
    requires Sound(o) && Sound(t) && again in {Some(t), base, None}
    ensures var m := MergedRecord(base, o, t);
            MergedRecord(again, m, t) == m <==> Contained(t.history, m.content, m.history)
  {
    hide Sound, Contained, AllSteady, MergedRecord;
    RemergedRecord(base, again, o, t);
    MergedRecordBody(base, o, t);
    SteadyBases(base, o.content, t);
  }

  /** Against ours, the title moves: two records without history, as imports write them, first merged without a base. */
  lemma OtherBaseMovesTitle(o: Content, t: Content)
    requires o.title != t.title
    ensures var m := MergedRecord(None, Built(o), Built(t));
            && Contained(Built(t).history, m.content, m.history) && m.content.title == o.title
            && MergedRecord(Some(Built(o)), m, Built(t)).content.title == t.title
  {
    var m := MergedRecord(None, Built(o), Built(t));
    MergedRecordBody(None, Built(o), Built(t));
    MergedRecordBody(Some(Built(o)), m, Built(t));
    hide MergedRecord, MergedBody;
    assert BareAll([]) == BareAll(m.history[..0]);
  }

  /** Merging the same side in once more repeats its whole history, exactly when the first entry's hashes moved:
      the merged content is not the one that entry was written against, or another entry now comes first. */
  lemma RemergeRepeats(base: Option<RecordState>, o: RecordState, t: RecordState)
    requires Sound(o) && Sound(t) && t.history != []
    ensures var m := MergedRecord(base, o, t);
            m.history != [] && t.history[0].toHash.Digest?
            && (|MergedHistory(m.history, t.history)| == |m.history| + |t.history| <==>
                  t.history[0].toHash.content != m.content || m.history[0].Bare() != t.history[0].Bare())
  {
    hide MergedRecord, MergedHistory, OpsSum, Committed, Verifies, HashedFor, Linked, Contained;
    MergeIsSound(base, o, t);
    MergedIsHashed(base, o, t);
    RepeatsOf(MergedRecord(base, o, t), t);
  }

  // --- what a compaction of one side costs a later merge ----------------------------------------------------------

  /** A compacted history commits to the record's content throughout. */
  lemma CompactedIsHashed(o: RecordState, policy: CompactPolicy)
    requires |o.history| > 1
    ensures var x := Compacted(o, policy);
            x.content == o.content && x.history != [] && HashedFor(x.content, x.history)
  {
    CompactionConserves(o, policy);
    hide Shortened, HashedFor, PinnedAt, OpsSum, Lines, Times, Nondecreasing, Credits, ReportOf;
    RelinkedShape(o.content, Shortened(o.history, policy));
  }

  /** After a compaction of ours, a merge adds all of theirs exactly if the first entry of theirs was written against
      another content than ours now has, or compaction did not leave such an entry first. It adds none exactly if all
      of theirs stands first in the compacted history, written against that content. */
  lemma CompactionCostsMerge(o: RecordState, t: RecordState, policy: CompactPolicy)
    requires Sound(o) && Sound(t) && |o.history| > 1 && t.history != []
    ensures var x := Compacted(o, policy);
            && x.history != [] && t.history[0].toHash.Digest?
            && (|MergedHistory(x.history, t.history)| == |x.history| + |t.history| <==>
                  t.history[0].toHash.content != o.content || x.history[0].Bare() != t.history[0].Bare())
            && (|MergedHistory(x.history, t.history)| == |x.history| <==>
                  Contained(t.history, o.content, x.history))
  {
    hide Compacted, MergedHistory, OpsSum, Committed, Verifies, HashedFor, Linked, Contained;
    var x := Compacted(o, policy);
    CompactionIsSound(o, policy);
    CompactedIsHashed(o, policy);
    RepeatsOf(x, t);
  }

  /** How much of `t` is new to a record hashed for one content. */
  lemma RepeatsOf(m: RecordState, t: RecordState)
    requires Sound(m) && Sound(t) && HashedFor(m.content, m.history) && m.history != [] && t.history != []
    ensures t.history[0].toHash.Digest?
    ensures |MergedHistory(m.history, t.history)| == |m.history| + |t.history| <==>
            t.history[0].toHash.content != m.content || m.history[0].Bare() != t.history[0].Bare()
    ensures |MergedHistory(m.history, t.history)| == |m.history| <==> Contained(t.history, m.content, m.history)
  {
    hide MergedHistory, OpsSum, Committed, Verifies, HashedFor, Linked, Contained;
    SoundIsLinked(t);
    MergedHistoryCounts(m.history, t.history);
    SameFirstEntry(m.content, m.history, t.history);
    CommonPrefixIsLongest(m.history, t.history, 1);
    assert m.history[..1] == [m.history[0]] && t.history[..1] == [t.history[0]];
    ContainedIsPrefix(t.history, m.content, m.history);
    if |t.history| <= |m.history| {
      CommonPrefixIsLongest(m.history, t.history, |t.history|);
      assert t.history[..|t.history|] == t.history;
    }
  }

  // --- a merge that repeats ---------------------------------------------------------------------------------------

  /** A task two branches start from. */
  function StartedTask(id: string, title: string): Content {
    Content(id, Task, title, Open, P2, None, "alice", 0, 0, None, None, [], [], [], Human,
            TaskBody("", None, [], [], None))
  }

  function WorkBy(actor: Identity, at: Timestamp): HistoryDraft {
    HistoryDraft(None, at, actor, [], ["work"], 1, Update, None)
  }

  /** One branch renames the task, the other only works on it. */
  function Renamed(id: string): Run {
    Edit(Build(StartedTask(id, "old")), StartedTask(id, "new"), WorkBy("alice", 1))
  }

  function WorkedOn(id: string): Run {
    Edit(Build(StartedTask(id, "old")), StartedTask(id, "old"), WorkBy("bob", 2))
  }

  lemma EditedOnce(start: Content, edited: Content, d: HistoryDraft)
    requires d.opsCount != 0
    ensures var e := DraftEntry(d, Empty, Empty);
            var x := Reached(Edit(Build(start), edited, d));
            x.Some? && x.value.content == edited && x.value.history == [e.(toHash := Digest(edited, [e]))]
  {
    hide TaggedSummary;
    assert Reached(Build(start)) == Some(Built(start));
    assert Built(start).history + [DraftEntry(d, Empty, Empty)] == [DraftEntry(d, Empty, Empty)];
  }

  /** Merging the working branch in again repeats its entry: renaming moved the hash it is known by. */
  lemma RenameMakesRemergeRepeat(id: string)
    ensures Reached(Renamed(id)).Some? && Reached(WorkedOn(id)).Some?
    ensures var base := Some(Built(StartedTask(id, "old")));
            var m := MergedRecord(base, Reached(Renamed(id)).value, Reached(WorkedOn(id)).value);
            |m.history| == 2 && |MergedHistory(m.history, Reached(WorkedOn(id)).value.history)| == 3
  {
    EditedOnce(StartedTask(id, "old"), StartedTask(id, "new"), WorkBy("alice", 1));
    EditedOnce(StartedTask(id, "old"), StartedTask(id, "old"), WorkBy("bob", 2));
    var base := Some(Built(StartedTask(id, "old")));
    var o, t := Reached(Renamed(id)).value, Reached(WorkedOn(id)).value;
    ReachedIsSound(Renamed(id));
    ReachedIsSound(WorkedOn(id));
    assert CommonPrefix(o.history, t.history) == 0;
    ReachedMergeIsUnion(base, Renamed(id), WorkedOn(id));
    MergedRecordBody(base, o, t);
    hide Reached, MergedRecord, MergedHistory, Sound, DraftEntry;
    RemergeRepeats(base, o, t);
  }
}
