/** Every record that building, editing, compacting, merging and promoting can produce. */
module Runs {
  import opened Wrappers
  import opened Kind
  import opened Records
  import opened Append
  import opened Verify
  import opened Compact
  import opened Relink
  import opened CompactProperties
  import opened SquashProperties
  import opened CapProperties
  import opened Commitment
  import opened Sorting
  import opened Merge
  import opened HistoryMerge
  import opened MergeSymmetry
  import opened Workspace

  /** How a record came about. An edit may replace the whole content before an entry is appended; the
      two sides of a merge have histories of their own, and its base may be anything. */
  datatype Run =
    | Build(content: Content)
    | Edit(before: Run, edited: Content, draft: HistoryDraft)
    | Save(before: Run, edited: Content, actor: Identity, command: string)
    | Compaction(before: Run, policy: CompactPolicy)
    | Merging(base: Option<RecordState>, ours: Run, theirs: Run)
    | Promotion(before: Run, now: Timestamp)

  /** The record a run ends with, unless a step was refused. */
  function Reached(run: Run): Option<RecordState> {
    match run
    case Build(c) => Some(Built(c))
    case Edit(before, c, d) =>
      (match Reached(before)
       case None => None
       case Some(r) =>
         match Appended(r.(content := c), d)
         case Success(s) => Some(Rehashed(s))
         case Failure(_) => None)
    case Save(before, c, actor, command) =>
      (match Reached(before)
       case None => None
       case Some(r) =>
         var e := r.(content := c);
         Some(Rehashed(Appended(e, SaveDraft(e, actor, command)).value)))
    case Compaction(before, policy) =>
      (match Reached(before)
       case None => None
       case Some(r) => Some(Compacted(r, policy)))
    case Merging(base, ours, theirs) =>
      (match (Reached(ours), Reached(theirs))
       case (Some(o), Some(t)) =>
         (match Merged(base, o, t)
          case Success(m) => Some(m.merged)
          case Failure(_) => None)
       case _ => None)
    case Promotion(before, now) =>
      match Reached(before)
      case None => None
      case Some(r) => if IsQuarantined(r.content) then Some(Promoted(r, now)) else None
  }

  /** What every step keeps: the chain verifies and its hashes commit to its prefixes. */
  ghost predicate Sound(r: RecordState) {
    Verifies(r) && Committed(r.history)
  }

  lemma SoundIsLinked(r: RecordState)
    requires Sound(r)
    ensures Linked(r.history)
    ensures r.history == [] ==> r.prevStateHash == None
  {
    VerifyAcceptsExactlyIntact(r);
  }

  lemma BuiltIsSound(c: Content)
    ensures Sound(Built(c))
  {
  }

  lemma AppendIsSound(r: RecordState, c: Content, d: HistoryDraft)
    requires Sound(r) && Appended(r.(content := c), d).Success?
    ensures var s := Appended(r.(content := c), d).value; Sound(s) && Rehashed(s) == s
  {
    SoundIsLinked(r);
    AppendedVerifies(r.(content := c), d);
    AppendedCommits(r.(content := c), d);
    hide Committed, VerifyChain, TaggedSummary;
  }

  lemma RelinkIsSound(r: RecordState)
    ensures Sound(Relinked(r))
  {
    RelinkedVerifies(r);
    RelinkedShape(r.content, r.history);
    HashedForCommits(r.content, Relinked(r).history);
  }

  lemma CompactionIsSound(r: RecordState, policy: CompactPolicy)
    requires Sound(r)
    ensures Sound(Compacted(r, policy))
  {
    hide Sound, Shortened;
    RelinkIsSound(r.(history := Shortened(r.history, policy)));
  }

  lemma MergeIsSound(base: Option<RecordState>, o: RecordState, t: RecordState)
    requires Sound(o) && Sound(t)
    ensures Sound(MergedRecord(base, o, t))
  {
    var content, history := MergedContent(base, o.content, t.content), MergedHistory(o.history, t.history);
    if history == [] {
      MergedHistoryCounts(o.history, t.history);
      SoundIsLinked(o);
      hide MergedContent, MergedHistory;
    } else {
      hide Sound, MergedContent, MergedHistory;
      RelinkIsSound(RecordState(content, history, o.stateHash, o.prevStateHash));
    }
  }

  /** Whole-run safety: every record any run can reach verifies, and commits to its prefixes. */
  lemma {:induction false} ReachedIsSound(run: Run)
    requires Reached(run).Some?
    ensures Sound(Reached(run).value)
  {
    hide Sound, Appended, Compacted, MergedRecord, Rehashed;
    match run
    case Build(c) => BuiltIsSound(c);
    case Edit(before, c, d) =>
      ReachedIsSound(before);
      AppendIsSound(Reached(before).value, c, d);
    case Save(before, c, actor, command) =>
      ReachedIsSound(before);
      var r := Reached(before).value;
      SaveAppends(r.(content := c), actor, command);
      AppendIsSound(r, c, SaveDraft(r.(content := c), actor, command));
    case Compaction(before, policy) =>
      ReachedIsSound(before);
      CompactionIsSound(Reached(before).value, policy);
    case Merging(base, ours, theirs) =>
      ReachedIsSound(ours);
      ReachedIsSound(theirs);
      MergeIsSound(base, Reached(ours).value, Reached(theirs).value);
    case Promotion(before, now) =>
      ReachedIsSound(before);
      var r := Reached(before).value;
      PromotionAppends(r, now);
      AppendIsSound(r, PromotedContent(r.content), PromotionDraft(r.content, now));
  }

  lemma SaveAppends(r: RecordState, actor: Identity, command: string)
    ensures Appended(r, SaveDraft(r, actor, command)).Success?
  {
  }

  lemma PromotionAppends(r: RecordState, now: Timestamp)
    ensures Appended(r.(content := PromotedContent(r.content)), PromotionDraft(r.content, now)).Success?
  {
  }

  /** Between any two reachable records a shared `to_hash` means one position of one common prefix. */
  lemma ReachedHashesCommit(a: Run, b: Run, i: nat, j: nat)
    requires Reached(a).Some? && Reached(b).Some?
    requires i < |Reached(a).value.history| && j < |Reached(b).value.history|
    ensures var g, h := Reached(a).value.history, Reached(b).value.history;
            g[i].toHash == h[j].toHash <==> i == j && g[..i + 1] == h[..j + 1]
  {
    hide Reached, VerifyChain;
    ReachedIsSound(a);
    ReachedIsSound(b);
    var g, h := Reached(a).value.history, Reached(b).value.history;
    CommitmentIsPrefix(g, h, i, j);
    if i == j && g[..i + 1] == h[..j + 1] {
      assert g[i] == g[..i + 1][i] == h[..j + 1][j] == h[j];
    }
  }

  // --- audit-critical entries --------------------------------------------------------------------------------

  /** No compaction of the run has a cap. */
  predicate Uncapped(run: Run) {
    match run
    case Build(_) => true
    case Edit(before, _, _) => Uncapped(before)
    case Save(before, _, _, _) => Uncapped(before)
    case Compaction(before, policy) => policy.maxHistoryLen.None? && Uncapped(before)
    case Merging(_, ours, theirs) => Uncapped(ours) && Uncapped(theirs)
    case Promotion(before, _) => Uncapped(before)
  }

  /** Every compaction of the run spares the critical entries it finds. */
  ghost predicate Sparing(run: Run) {
    match run
    case Build(_) => true
    case Edit(before, _, _) => Sparing(before)
    case Save(before, _, _, _) => Sparing(before)
    case Compaction(before, policy) =>
      Sparing(before)
      && (Reached(before).Some? ==> SparesCriticals(Squashed(Reached(before).value.history, policy), policy))
    case Merging(_, ours, theirs) => Sparing(ours) && Sparing(theirs)
    case Promotion(before, _) => Sparing(before)
  }

  /** Without caps every compaction does. */
  lemma {:induction false} UncappedSpares(run: Run)
    requires Uncapped(run)
    ensures Sparing(run)
  {
    hide Reached, Squashed;
    match run
    case Build(_) =>
    case Edit(before, _, _) => UncappedSpares(before);
    case Save(before, _, _, _) => UncappedSpares(before);
    case Compaction(before, policy) =>
      UncappedSpares(before);
      if Reached(before).Some? {
        NoCapSpares(Squashed(Reached(before).value.history, policy), policy);
      }
    case Merging(_, ours, theirs) =>
      UncappedSpares(ours);
      UncappedSpares(theirs);
    case Promotion(before, _) => UncappedSpares(before);
  }

  lemma NoCapSpares(h: seq<HistoryEntry>, policy: CompactPolicy)
    requires policy.maxHistoryLen.None?
    ensures SparesCriticals(h, policy)
  {
    hide FirstEligible, IsUpdate;
  }

  /** Every draft of the run whose kind is not a plain update. */
  ghost function CriticalDrafts(run: Run): set<HistoryDraft> {
    match run
    case Build(_) => {}
    case Edit(before, _, d) => CriticalDrafts(before) + CriticalDraft(d)
    case Save(before, c, actor, command) =>
      CriticalDrafts(before)
      + if Reached(before).None? then {}
        else CriticalDraft(SaveDraft(Reached(before).value.(content := c), actor, command))
    case Compaction(before, _) => CriticalDrafts(before)
    case Merging(_, ours, theirs) => CriticalDrafts(ours) + CriticalDrafts(theirs)
    case Promotion(before, _) => CriticalDrafts(before)
  }

  ghost function CriticalDraft(d: HistoryDraft): set<HistoryDraft> {
    if d.kind.IsAuditCritical() then {d} else {}
  }

  lemma AppendKeepsEntries(r: RecordState, c: Content, d: HistoryDraft)
    requires Appended(r.(content := c), d).Success?
    ensures BareAll(Appended(r.(content := c), d).value.history) == BareAll(r.history) + [DraftEntry(d, Empty, Empty)]
  {
    hide TaggedSummary;
    var h := Appended(r.(content := c), d).value.history;
    BareAllConcat(r.history, [h[|h| - 1]]);
  }

  lemma {:induction false} CriticalsMember(h: seq<HistoryEntry>, e: HistoryEntry)
    ensures e in Criticals(h) <==> e in h && !IsUpdate(e)
  {
    hide IsUpdate;
    if h != [] {
      var n := |h| - 1;
      CriticalsMember(h[..n], e);
      assert h == h[..n] + [h[n]];
    }
  }

  lemma BareMember(h: seq<HistoryEntry>, e: HistoryEntry) returns (x: HistoryEntry)
    requires e in BareAll(h)
    ensures x in h && x.Bare() == e
  {
    var i :| 0 <= i < |h| && BareAll(h)[i] == e;
    x := h[i];
  }

  lemma MemberBare(h: seq<HistoryEntry>, x: HistoryEntry)
    requires x in h
    ensures x.Bare() in BareAll(h)
  {
    var i :| 0 <= i < |h| && h[i] == x;
    assert BareAll(h)[i] == x.Bare();
  }

  lemma BareKind(x: HistoryEntry)
    ensures EntryKind(x.Bare()) == EntryKind(x)
  {
    hide EntryKind;
    assert x.Bare().opsSummary == x.opsSummary;
    KindFromSummary(x, x.Bare());
  }

  lemma KindFromSummary(a: HistoryEntry, b: HistoryEntry)
    requires a.opsSummary == b.opsSummary
    ensures EntryKind(a) == EntryKind(b)
  {
  }

  /** A compaction that spares the critical entries keeps each of them, up to its hashes. */
  lemma CompactionKeepsCriticals(r: RecordState, policy: CompactPolicy, e: HistoryEntry)
    requires SparesCriticals(Squashed(r.history, policy), policy) && e in BareAll(r.history) && !IsUpdate(e)
    ensures e in BareAll(Compacted(r, policy).history)
  {
    hide Compacted, Squashed, SparesCriticals, EntryKind, Criticals, BareAll;
    CompactionKeepsCriticalsExactly(r, policy);
    var h, g := r.history, Compacted(r, policy).history;
    var x := BareMember(h, e);
    BareKind(x);
    CriticalsMember(h, x);
    MemberBare(Criticals(h), x);
    var y := BareMember(Criticals(g), e);
    CriticalsMember(g, y);
    MemberBare(g, y);
  }

  /** An entry of a side is in the union without the common prefix. */
  lemma InUnion(o: seq<HistoryEntry>, t: seq<HistoryEntry>, x: HistoryEntry)
    requires x in o || x in t
    ensures x in o + t[CommonPrefix(o, t)..]
  {
    var k := CommonPrefix(o, t);
    hide CommonPrefix;
    if x in t {
      var i :| 0 <= i < |t| && t[i] == x;
      if i < k {
        assert o[..k][i] == t[..k][i] == x;
      } else {
        assert t[k..][i - k] == x;
      }
    }
  }

  lemma InMerged(o: seq<HistoryEntry>, t: seq<HistoryEntry>, x: HistoryEntry)
    requires Committed(o) && Committed(t) && (x in o || x in t)
    ensures x in MergedHistory(o, t)
  {
    MergedHistoryIs(o, t, MergedHistory(o, t));
    InUnion(o, t, x);
    hide MergedHistory, CommonPrefix, Committed;
    assert x in multiset(MergedHistory(o, t));
  }

  lemma MergeKeepsEntries(base: Option<RecordState>, o: RecordState, t: RecordState, e: HistoryEntry)
    requires Committed(o.history) && Committed(t.history)
    requires e in BareAll(o.history) || e in BareAll(t.history)
    ensures e in BareAll(MergedRecord(base, o, t).history)
  {
    hide BareAll, MergedHistory, Committed;
    var x := BareMember(if e in BareAll(t.history) then t.history else o.history, e);
    InMerged(o.history, t.history, x);
    MemberBare(MergedHistory(o.history, t.history), x);
    MergedRecordHistory(base, o, t);
  }

  /** No critical entry is ever lost: over any run whose compactions spare them, capped or not, every draft of a kind
      other than update is in the history, equal but for its two hashes, and reads back its kind. */
  lemma {:induction false} CriticalDraftsSurvive(run: Run, d: HistoryDraft)
    requires Reached(run).Some? && Sparing(run) && d in CriticalDrafts(run)
    ensures d.kind.IsAuditCritical()
    ensures DraftEntry(d, Empty, Empty) in BareAll(Reached(run).value.history)
    ensures EntryKind(DraftEntry(d, Empty, Empty)) == Some(d.kind)
    decreases run, 0
  {
    hide EntryKind, BareAll, Appended, Compacted, MergedRecord, DraftEntry, Committed, VerifyChain, SaveDraft,
         PromotionDraft, SparesCriticals, Squashed;
    EntryKindReadsBack(d, Empty, Empty);
    match run
    case Edit(before, c, latest) =>
      AppendKeepsEntries(Reached(before).value, c, latest);
      DraftSurvives(before, latest, d);
    case Save(before, c, actor, command) =>
      var r := Reached(before).value;
      SaveAppends(r.(content := c), actor, command);
      AppendKeepsEntries(r, c, SaveDraft(r.(content := c), actor, command));
      DraftSurvives(before, SaveDraft(r.(content := c), actor, command), d);
    case Compaction(before, policy) =>
      CriticalDraftsSurvive(before, d);
      CompactionKeepsCriticals(Reached(before).value, policy, DraftEntry(d, Empty, Empty));
    case Merging(base, ours, theirs) =>
      ReachedIsSound(ours);
      ReachedIsSound(theirs);
      if d in CriticalDrafts(ours) {
        CriticalDraftsSurvive(ours, d);
      } else {
        CriticalDraftsSurvive(theirs, d);
      }
      MergeKeepsEntries(base, Reached(ours).value, Reached(theirs).value, DraftEntry(d, Empty, Empty));
    case Promotion(before, now) =>
      CriticalDraftsSurvive(before, d);
      var r := Reached(before).value;
      PromotionAppends(r, now);
      AppendKeepsEntries(r, PromotedContent(r.content), PromotionDraft(r.content, now));
    case Build(_) =>
  }

  /** So some entry of the history carries every field of the draft. */
  lemma CriticalDraftsAreCarried(run: Run, d: HistoryDraft) returns (e: HistoryEntry)
    requires Reached(run).Some? && Sparing(run) && d in CriticalDrafts(run)
    ensures e in Reached(run).value.history && Carries(e, d)
  {
    CriticalDraftsSurvive(run, d);
    hide BareAll, Reached, DraftEntry, TaggedSummary, EntryKind;
    e := BareMember(Reached(run).value.history, DraftEntry(d, Empty, Empty));
    DraftIsCarried(d, Empty, Empty);
    BareKind(e);
    BareKind(DraftEntry(d, Empty, Empty));
  }

  /** A draft is the latest, or was made before. */
  lemma DraftSurvives(before: Run, latest: HistoryDraft, d: HistoryDraft)
    requires Reached(before).Some? && Sparing(before) && d in CriticalDrafts(before) + CriticalDraft(latest)
    ensures d.kind.IsAuditCritical()
    ensures DraftEntry(d, Empty, Empty) in BareAll(Reached(before).value.history) + [DraftEntry(latest, Empty, Empty)]
    decreases before, 1
  {
    hide BareAll, DraftEntry, EntryKind, Reached;
    if d in CriticalDrafts(before) {
      CriticalDraftsSurvive(before, d);
    }
  }

  /** Merging two reachable records takes the union of their histories: what they share counts once. */
  lemma ReachedMergeIsUnion(base: Option<RecordState>, ours: Run, theirs: Run)
    requires Reached(ours).Some? && Reached(theirs).Some?
    ensures var o, t := Reached(ours).value, Reached(theirs).value;
            var k, m := CommonPrefix(o.history, t.history), MergedRecord(base, o, t).history;
            && |m| == |o.history| + |t.history| - k
            && OpsSum(m) == OpsSum(o.history) + OpsSum(t.history) - OpsSum(o.history[..k])
            && Nondecreasing(Times(m))
  {
    hide Reached, MergedRecord, MergedHistory, OpsSum, Committed, Verifies;
    ReachedIsSound(ours);
    ReachedIsSound(theirs);
    var o, t := Reached(ours).value, Reached(theirs).value;
    MergedHistoryCounts(o.history, t.history);
    MergedRecordHistory(base, o, t);
    GatherBare(MergedRecord(base, o, t).history, MergedHistory(o.history, t.history));
    SortIsTimeSort(Deduped(o.history + t.history));
    MergedIsSorted(o.history, t.history);
  }

  lemma MergedIsSorted(ours: seq<HistoryEntry>, theirs: seq<HistoryEntry>)
    ensures Nondecreasing(Times(MergedHistory(ours, theirs)))
  {
    hide StableSort, Deduped, Nondecreasing;
    SortIsTimeSort(Deduped(ours + theirs));
  }

  /** A reachable record's saves read back as a creation first and as updates ever after. */
  lemma SavedKind(before: Run, edited: Content, actor: Identity, command: string)
    requires Reached(before).Some?
    ensures Reached(Save(before, edited, actor, command)).Some?
    ensures var h := Reached(Save(before, edited, actor, command)).value.history;
            && h != []
            && EntryKind(h[|h| - 1]) == Some(if Reached(before).value.history == [] then Create else Update)
  {
    var e := Reached(before).value.(content := edited);
    var d := SaveDraft(e, actor, command);
    ReachedIsSound(before);
    SoundIsLinked(Reached(before).value);
    var from := ChainHead(e.history);
    EntryKindReadsBack(d, from, Digest(edited, e.history + [DraftEntry(d, from, Empty)]));
    hide EntryKind, Sound, TaggedSummary;
  }

  // --- a compaction that needs another -----------------------------------------------------------------------------

  function UpdateBy(actor: Identity, at: Timestamp): HistoryDraft {
    HistoryDraft(None, at, actor, [], ["edit"], 1, Update, None)
  }

  /** An edit that leaves the content alone. */
  function EditBy(before: Run, content: Content, actor: Identity, at: Timestamp): Run {
    Edit(before, content, UpdateBy(actor, at))
  }

  /** Three updates by two actors in turn, less than an hour apart. */
  function InTurn(content: Content, alice: Identity, bob: Identity, at: Timestamp): Run {
    EditBy(EditBy(EditBy(Build(content), content, alice, at), content, bob, at + 3000), content, alice, at + 6000)
  }

  lemma EditAppends(before: Run, content: Content, actor: Identity, at: Timestamp)
    requires Reached(before).Some?
    ensures Reached(EditBy(before, content, actor, at)).Some?
    ensures var h, g := Reached(EditBy(before, content, actor, at)).value.history, Reached(before).value.history;
            && |h| == |g| + 1 && h[..|g|] == g
            && IsUpdate(h[|g|]) && h[|g|].primaryActor == actor && h[|g|].timestamp == at
  {
    var r, d := Reached(before).value.(content := content), UpdateBy(actor, at);
    var from := ChainHead(r.history);
    EntryKindReadsBack(d, from, Digest(content, r.history + [DraftEntry(d, from, Empty)]));
    hide TaggedSummary, EntryKind;
  }

  /** Such a run, compacted under the default kinds with a cap of two, changes when it is compacted again. */
  lemma CapNeedsTwoPasses(content: Content, alice: Identity, bob: Identity, at: Timestamp)
    requires alice != bob
    ensures var run, policy := InTurn(content, alice, bob, at), CappedPolicy(2);
            var once := Compaction(run, policy);
            && Reached(once).Some? && Reached(Compaction(once, policy)).Some?
            && Reached(Compaction(once, policy)) != Reached(once)
  {
    hide IsUpdate, Compacted, Appended, Rehashed, Merged;
    var one := EditBy(Build(content), content, alice, at);
    var two := EditBy(one, content, bob, at + 3000);
    EditAppends(Build(content), content, alice, at);
    EditAppends(one, content, bob, at + 3000);
    EditAppends(two, content, alice, at + 6000);
    TwoPassesNeeded(Reached(InTurn(content, alice, bob, at)).value, CappedPolicy(2));
  }
}
