/** Compaction of a record's history (crates/ft-history/src/compact.rs): squash runs of updates,
    bucket what exceeds the cap, relink the chain. */
module Compact {
  import opened Wrappers
  import opened Kind
  import opened Records
  import opened Append

  datatype CompactPolicy = CompactPolicy(
    squashUpdatesWithin: int, preserveKinds: set<HistoryEntryKind>, maxHistoryLen: Option<nat>)

  datatype CompactedKind = SquashedUpdate | OverflowBucketed

  datatype CompactReport = CompactReport(entriesBefore: nat, entriesAfter: nat, dropped: seq<CompactedKind>)

  function Max(a: int, b: int): int {
    if a < b then b else a
  }

  function SaturatingAdd(a: U32, b: U32): U32 {
    if a + b > U32_MAX then U32_MAX else a + b
  }

  // --- merging one entry into another -------------------------------------------------------------

  /** `acc` followed by the elements of `xs` that are new, in order, each once, none of them banned. */
  function AddNew<T(==)>(acc: seq<T>, xs: seq<T>, banned: set<T>): seq<T>
    decreases |xs|
  {
    if xs == [] then acc
    else AddNew(if xs[0] in acc || xs[0] in banned then acc else acc + [xs[0]], xs[1..], banned)
  }

  function MergeInto(dst: HistoryEntry, src: HistoryEntry): HistoryEntry {
    dst.(timestamp := Max(dst.timestamp, src.timestamp),
         mergedViaPr := if src.mergedViaPr.Some? then src.mergedViaPr else dst.mergedViaPr,
         contributors := AddNew(dst.contributors, src.contributors, {dst.primaryActor}),
         opsSummary := AddNew(dst.opsSummary, src.opsSummary, {}),
         opsCount := SaturatingAdd(dst.opsCount, src.opsCount),
         toHash := src.toHash)
  }

  /** The left fold of `MergeInto` over a block of entries. */
  function FoldInto(dst: HistoryEntry, block: seq<HistoryEntry>): HistoryEntry
    decreases |block|
  {
    if block == [] then dst else FoldInto(MergeInto(dst, block[0]), block[1..])
  }

  method MergeEntry(dst0: HistoryEntry, src: HistoryEntry) returns (dst: HistoryEntry)
    ensures dst == MergeInto(dst0, src)
  {
    dst := dst0.(timestamp := Max(dst0.timestamp, src.timestamp));
    if src.mergedViaPr.Some? {
      dst := dst.(mergedViaPr := src.mergedViaPr);
    }
    ghost var goal := AddNew(dst0.contributors, src.contributors, {dst0.primaryActor});
    var i := 0;
    while i < |src.contributors|
      invariant 0 <= i <= |src.contributors|
      invariant AddNew(dst.contributors, src.contributors[i..], {dst0.primaryActor}) == goal
      invariant dst == dst0.(timestamp := Max(dst0.timestamp, src.timestamp), contributors := dst.contributors,
                             mergedViaPr := if src.mergedViaPr.Some? then src.mergedViaPr else dst0.mergedViaPr)
    {
      var c := src.contributors[i];
      if c !in dst.contributors && c != dst.primaryActor {
        dst := dst.(contributors := dst.contributors + [c]);
      }
      i := i + 1;
    }
    goal := AddNew(dst0.opsSummary, src.opsSummary, {});
    ghost var before := dst;
    i := 0;
    while i < |src.opsSummary|
      invariant 0 <= i <= |src.opsSummary|
      invariant AddNew(dst.opsSummary, src.opsSummary[i..], {}) == goal
      invariant dst == before.(opsSummary := dst.opsSummary)
    {
      var line := src.opsSummary[i];
      if line !in dst.opsSummary {
        dst := dst.(opsSummary := dst.opsSummary + [line]);
      }
      i := i + 1;
    }
    dst := dst.(opsCount := SaturatingAdd(dst.opsCount, src.opsCount));
    dst := dst.(toHash := src.toHash);
  }

  // --- phase 1: squash ------------------------------------------------------------------------------

  /** Whether `entry` is absorbed by the entry kept just before it. */
  predicate Joins(prev: HistoryEntry, entry: HistoryEntry, policy: CompactPolicy) {
    && IsUpdate(entry) && Update !in policy.preserveKinds
    && IsUpdate(prev)
    && prev.primaryActor == entry.primaryActor
    && entry.timestamp - prev.timestamp <= policy.squashUpdatesWithin
  }

  /** One entry taken onto those already kept. */
  function Take(kept: seq<HistoryEntry>, e: HistoryEntry, policy: CompactPolicy): (r: seq<HistoryEntry>)
    ensures |kept| <= |r| <= |kept| + 1 && r != []
  {
    if kept != [] && Joins(kept[|kept| - 1], e, policy) then
      kept[..|kept| - 1] + [MergeInto(kept[|kept| - 1], e)]
    else kept + [e]
  }

  /** The history's entries taken one by one. */
  function Squashed(h: seq<HistoryEntry>, policy: CompactPolicy): (r: seq<HistoryEntry>)
    ensures |r| <= |h| && (h != [] ==> r != [])
  {
    if h == [] then [] else Take(Squashed(h[..|h| - 1], policy), h[|h| - 1], policy)
  }

  function Repeat<T>(x: T, n: nat): (r: seq<T>)
    ensures |r| == n && forall i :: 0 <= i < n ==> r[i] == x
  {
    seq(n, i requires 0 <= i < n => x)
  }

  /** The loop body of phase 1. */
  method SquashOne(kept: seq<HistoryEntry>, entry: HistoryEntry, policy: CompactPolicy)
    returns (compacted: seq<HistoryEntry>)
    ensures compacted == Take(kept, entry, policy)
  {
    hide EntryKind, MergeInto;
    var kind := EntryKind(entry);
    var isSquashable := kind == Some(Update) && Update !in policy.preserveKinds;
    if isSquashable && kept != [] {
      var prev := kept[|kept| - 1];
      var prevKind := EntryKind(prev);
      if prevKind == Some(Update) && prev.primaryActor == entry.primaryActor
         && entry.timestamp - prev.timestamp <= policy.squashUpdatesWithin {
        var merged := MergeEntry(prev, entry);
        return kept[..|kept| - 1] + [merged];
      }
    }
    return kept + [entry];
  }

  method Squash(history: seq<HistoryEntry>, policy: CompactPolicy)
    returns (compacted: seq<HistoryEntry>, dropped: seq<CompactedKind>)
    ensures compacted == Squashed(history, policy)
    ensures dropped == Repeat(SquashedUpdate, |history| - |compacted|)
  {
    hide Take;
    compacted, dropped := [], [];
    var i := 0;
    while i < |history|
      invariant 0 <= i <= |history|
      invariant compacted == Squashed(history[..i], policy)
      invariant i == |compacted| + |dropped|
      invariant forall j :: 0 <= j < |dropped| ==> dropped[j] == SquashedUpdate
    {
      assert history[..i + 1][..i] == history[..i];
      var n := |compacted|;
      compacted := SquashOne(compacted, history[i], policy);
      if |compacted| == n {
        dropped := dropped + [SquashedUpdate];
      }
      i := i + 1;
    }
    assert history[..i] == history;
  }

  // --- phase 2: overflow bucket ---------------------------------------------------------------------

  predicate Eligible(e: HistoryEntry, policy: CompactPolicy) {
    EntryKind(e).Some? && (EntryKind(e).value !in policy.preserveKinds || EntryKind(e).value == Update)
  }

  /** `position`: the oldest entry that may take others in. */
  function FirstEligible(h: seq<HistoryEntry>, policy: CompactPolicy): (r: Option<nat>)
    ensures r.Some? ==> r.value < |h| && Eligible(h[r.value], policy)
    ensures forall i :: 0 <= i < (if r.Some? then r.value else |h|) ==> !Eligible(h[i], policy)
  {
    if h == [] then None
    else if Eligible(h[0], policy) then Some(0)
    else
      match FirstEligible(h[1..], policy)
      case None =>
        assert forall i :: 1 <= i < |h| ==> h[i] == h[1..][i - 1];
        None
      case Some(k) =>
        assert forall i :: 1 <= i < k + 1 ==> h[i] == h[1..][i - 1];
        Some(k + 1)
  }

  /** `h` with the entry at `k` having taken in the `count` entries after it. */
  function Bucketed(h: seq<HistoryEntry>, k: nat, count: nat): (r: seq<HistoryEntry>)
    requires k + 1 + count <= |h|
    ensures |r| == |h| - count
  {
    h[..k] + [FoldInto(h[k], h[k + 1..k + 1 + count])] + h[k + 1 + count..]
  }

  /** How many entries the overflow pass takes away: what exceeds the cap, but never the first
      eligible entry or what precedes it. */
  function OverflowCount(h: seq<HistoryEntry>, policy: CompactPolicy): (count: nat)
    ensures count != 0 ==> policy.maxHistoryLen.Some? && FirstEligible(h, policy).Some?
    ensures FirstEligible(h, policy).Some? ==> FirstEligible(h, policy).value + 1 + count <= |h|
  {
    if policy.maxHistoryLen.None? || FirstEligible(h, policy).None? then 0
    else
      var least := Max(policy.maxHistoryLen.value, FirstEligible(h, policy).value + 1);
      if |h| <= least then 0 else |h| - least
  }

  /** The overflow pass in closed form. */
  function Overflowed(h: seq<HistoryEntry>, policy: CompactPolicy): (r: seq<HistoryEntry>)
    ensures |r| == |h| - OverflowCount(h, policy)
  {
    if OverflowCount(h, policy) == 0 then h
    else Bucketed(h, FirstEligible(h, policy).value, OverflowCount(h, policy))
  }

  lemma MergeKeepsKind(dst: HistoryEntry, src: HistoryEntry)
    requires dst.opsSummary != []
    ensures EntryKind(MergeInto(dst, src)) == EntryKind(dst)
    ensures MergeInto(dst, src).opsSummary != []
    ensures MergeInto(dst, src).primaryActor == dst.primaryActor
  {
    AddNewExtends(dst.opsSummary, src.opsSummary, {});
  }

  lemma {:induction false} AddNewExtends<T>(acc: seq<T>, xs: seq<T>, banned: set<T>)
    ensures acc <= AddNew(acc, xs, banned)
    decreases |xs|
  {
    if xs != [] {
      AddNewExtends(if xs[0] in acc || xs[0] in banned then acc else acc + [xs[0]], xs[1..], banned);
    }
  }

  lemma {:induction false} FoldKeepsKind(dst: HistoryEntry, block: seq<HistoryEntry>)
    requires dst.opsSummary != []
    ensures EntryKind(FoldInto(dst, block)) == EntryKind(dst)
    ensures FoldInto(dst, block).opsSummary != []
    ensures FoldInto(dst, block).primaryActor == dst.primaryActor
    decreases |block|
  {
    if block != [] {
      MergeKeepsKind(dst, block[0]);
      FoldKeepsKind(MergeInto(dst, block[0]), block[1..]);
    }
  }

  lemma {:induction false} FoldIntoSnoc(dst: HistoryEntry, block: seq<HistoryEntry>, last: HistoryEntry)
    ensures FoldInto(dst, block + [last]) == MergeInto(FoldInto(dst, block), last)
    decreases |block|
  {
    if block == [] {
      assert (block + [last])[1..] == [];
    } else {
      assert (block + [last])[1..] == block[1..] + [last];
      FoldIntoSnoc(MergeInto(dst, block[0]), block[1..], last);
    }
  }

  lemma FirstEligibleUnique(h: seq<HistoryEntry>, policy: CompactPolicy, k: nat)
    requires k < |h| && Eligible(h[k], policy)
    requires forall i :: 0 <= i < k ==> !Eligible(h[i], policy)
    ensures FirstEligible(h, policy) == Some(k)
  {
    hide Eligible, FirstEligible;
  }

  /** Taking in entries leaves the first eligible entry where it was. */
  lemma BucketStaysFirst(h: seq<HistoryEntry>, policy: CompactPolicy, k: nat, count: nat)
    requires FirstEligible(h, policy) == Some(k) && k + 1 + count <= |h|
    ensures FirstEligible(Bucketed(h, k, count), policy) == Some(k)
  {
    var b := Bucketed(h, k, count);
    assert Eligible(b[k], policy) by {
      assert h[k].opsSummary != [];
      FoldKeepsKind(h[k], h[k + 1..k + 1 + count]);
    }
    hide Eligible, FirstEligible, FoldInto;
    forall i | 0 <= i < k
      ensures !Eligible(b[i], policy)
    {
      assert b[i] == h[i];
    }
    FirstEligibleUnique(b, policy, k);
  }

  /** Taking in one more entry is one more step of the fold. */
  lemma BucketGrows(h: seq<HistoryEntry>, k: nat, count: nat)
    requires k + 1 + count < |h|
    ensures var b := Bucketed(h, k, count);
            b[..k] + [MergeInto(b[k], b[k + 1])] + b[k + 2..] == Bucketed(h, k, count + 1)
  {
    hide MergeInto, FoldInto;
    var block := h[k + 1..k + 1 + count];
    FoldIntoSnoc(h[k], block, h[k + 1 + count]);
    assert block + [h[k + 1 + count]] == h[k + 1..k + 1 + (count + 1)];
  }

  lemma BucketStep(h: seq<HistoryEntry>, policy: CompactPolicy, k: nat, count: nat)
    requires FirstEligible(h, policy) == Some(k) && k + 1 + count <= |h|
    ensures FirstEligible(Bucketed(h, k, count), policy) == Some(k)
    ensures k + 1 + count < |h| ==>
              var b := Bucketed(h, k, count);
              b[..k] + [MergeInto(b[k], b[k + 1])] + b[k + 2..] == Bucketed(h, k, count + 1)
  {
    hide FirstEligible, MergeInto, Bucketed;
    BucketStaysFirst(h, policy, k, count);
    if k + 1 + count < |h| {
      BucketGrows(h, k, count);
    }
  }

  lemma BucketOfNone(h: seq<HistoryEntry>, k: nat)
    requires k < |h|
    ensures Bucketed(h, k, 0) == h
  {
    assert h[k + 1..k + 1] == [];
  }

  /** While the history is too long, the oldest eligible entry takes in its successor. */
  method Overflow(history: seq<HistoryEntry>, policy: CompactPolicy)
    returns (compacted: seq<HistoryEntry>, dropped: seq<CompactedKind>)
    ensures compacted == Overflowed(history, policy)
    ensures dropped == Repeat(OverflowBucketed, |history| - |compacted|)
  {
    hide Eligible, FirstEligible, MergeInto, Bucketed;
    compacted, dropped := history, [];
    if policy.maxHistoryLen.Some? {
      var cap := policy.maxHistoryLen.value;
      ghost var first := FirstEligible(history, policy);
      if first.Some? {
        BucketOfNone(history, first.value);
      }
      while |compacted| > cap
        invariant |compacted| == |history| - |dropped|
        invariant first.None? ==> compacted == history
        invariant first.Some? ==> first.value + 1 + |dropped| <= |history|
        invariant first.Some? ==> compacted == Bucketed(history, first.value, |dropped|)
        invariant |dropped| != 0 ==> |compacted| >= cap
        invariant forall j :: 0 <= j < |dropped| ==> dropped[j] == OverflowBucketed
        decreases |compacted|
      {
        if first.Some? {
          BucketStep(history, policy, first.value, |dropped|);
        }
        var mergeAt := FirstEligible(compacted, policy);
        if mergeAt.None? {
          break;
        }
        var idx := mergeAt.value;
        if idx + 1 >= |compacted| {
          break;
        }
        var removed := compacted[idx + 1];
        var merged := MergeEntry(compacted[idx], removed);
        compacted := compacted[..idx] + [merged] + compacted[idx + 2..];
        dropped := dropped + [OverflowBucketed];
      }
    }
  }

  // --- phase 3: relink --------------------------------------------------------------------------------

  /** Every entry re-hashed from the head on, against the present content. */
  function RelinkedHistory(content: Content, h: seq<HistoryEntry>): (r: seq<HistoryEntry>)
    ensures |r| == |h|
  {
    if h == [] then []
    else
      var before := RelinkedHistory(content, h[..|h| - 1]);
      var open := h[|h| - 1].(fromHash := ChainHead(before), toHash := Empty);
      before + [open.(toHash := Digest(content, before + [open]))]
  }

  function Relinked(r: RecordState): RecordState {
    var h := RelinkedHistory(r.content, r.history);
    RecordState(r.content, h, Digest(r.content, h), if h == [] then None else PrevPointer(h[|h| - 1].fromHash))
  }

  /** One more entry: only what it says and where the chain stands matter, not its old hashes. */
  lemma RelinkStep(content: Content, original: seq<HistoryEntry>, before: seq<HistoryEntry>, e: HistoryEntry, i: nat)
    requires i < |original| && before == RelinkedHistory(content, original[..i])
    requires e.Bare() == original[i].Bare() && e.fromHash == ChainHead(before)
    ensures RelinkedHistory(content, original[..i + 1])
         == before + [e.(toHash := Digest(content, before + [e.(toHash := Empty)]))]
  {
    assert original[..i + 1][..i] == original[..i];
    assert e.(toHash := Empty) == original[i].(fromHash := ChainHead(before), toHash := Empty);
  }

  /** From entry `i` on the two say the same. */
  predicate SaySameFrom(a: seq<HistoryEntry>, b: seq<HistoryEntry>, i: nat)
    requires |a| == |b|
  {
    forall j :: i <= j < |a| ==> a[j].Bare() == b[j].Bare()
  }

  /** Entry `i` overwritten in a history relinked up to it. */
  lemma RelinkInPlace(content: Content, original: seq<HistoryEntry>, h: seq<HistoryEntry>, e: HistoryEntry, i: nat)
    requires i < |h| == |original| && h[..i] == RelinkedHistory(content, original[..i]) && SaySameFrom(h, original, i)
    requires e.Bare() == h[i].Bare() && e.fromHash == ChainHead(h[..i])
    requires e.toHash == Digest(content, h[..i] + [e.(toHash := Empty)])
    ensures h[i := e][..i + 1] == RelinkedHistory(content, original[..i + 1])
    ensures SaySameFrom(h[i := e], original, i + 1)
  {
    hide RelinkedHistory;
    RelinkStep(content, original, h[..i], e, i);
    assert h[i := e][..i + 1] == h[..i] + [e];
  }

  /** The hash of a copy of the record that ends, open, with entry `i`. */
  method HashTruncated(record: Record, i: nat) returns (h: Hash)
    requires i < |record.history|
    ensures h == Digest(record.content, record.history[..i] + [record.history[i].(toHash := Empty)])
  {
    var tmp := new Record(record.Current());
    tmp.history := tmp.history[..i + 1];
    tmp.history := tmp.history[i := tmp.history[i].(toHash := Empty)];
    tmp.stateHash := Empty;
    tmp.prevStateHash := None;
    h := OpenTailHash(tmp.Current());
    assert tmp.history == record.history[..i] + [record.history[i].(toHash := Empty)];
    assert OpenTail(tmp.history) == tmp.history;
  }

  /** Pin each entry's hashes from the head on: the record cut after the entry gives its `to_hash`. */
  method RelinkChain(record: Record)
    modifies record
    ensures record.State() == Relinked(old(record.State()))
  {
    if record.history == [] {
      record.stateHash := StateHash(record.Current());
      record.prevStateHash := None;
      return;
    }
    ghost var original := record.history;
    record.history := record.history[0 := record.history[0].(fromHash := Empty)];
    var i := 0;
    while i < |record.history|
      invariant record.content == old(record.content)
      invariant 0 <= i <= |record.history| == |original|
      invariant record.history[..i] == RelinkedHistory(record.content, original[..i])
      invariant SaySameFrom(record.history, original, i)
    {
      hide RelinkedHistory, SaySameFrom;
      ghost var given := record.history;
      var from := if i == 0 then Empty else record.history[i - 1].toHash;
      var entry := record.history[i].(fromHash := from);
      record.history := record.history[i := entry];
      var h := HashTruncated(record, i);
      record.history := record.history[i := record.history[i].(toHash := h)];
      assert record.history == given[i := entry.(toHash := h)];
      RelinkInPlace(record.content, original, given, entry.(toHash := h), i);
      i := i + 1;
    }
    assert original[..i] == original && record.history[..i] == record.history;
    var tail := record.history[|record.history| - 1];
    record.prevStateHash := if tail.fromHash == Empty then None else Some(tail.fromHash);
    record.stateHash := Empty;
    record.stateHash := StateHash(record.Current());
  }

  // --- the whole ----------------------------------------------------------------------------------------

  function Shortened(h: seq<HistoryEntry>, policy: CompactPolicy): seq<HistoryEntry> {
    Overflowed(Squashed(h, policy), policy)
  }

  function Compacted(r: RecordState, policy: CompactPolicy): RecordState {
    if |r.history| <= 1 then r else Relinked(r.(history := Shortened(r.history, policy)))
  }

  function ReportOf(r: RecordState, policy: CompactPolicy): CompactReport {
    var n0 := |r.history|;
    if n0 <= 1 then CompactReport(n0, n0, [])
    else
      var n1 := |Squashed(r.history, policy)|;
      var n2 := |Shortened(r.history, policy)|;
      CompactReport(n0, n2, Repeat(SquashedUpdate, n0 - n1) + Repeat(OverflowBucketed, n1 - n2))
  }

  method CompactHistory(record: Record, policy: CompactPolicy) returns (report: CompactReport)
    modifies record
    ensures record.State() == Compacted(old(record.State()), policy)
    ensures report == ReportOf(old(record.State()), policy)
  {
    hide Squashed, OverflowCount, RelinkedHistory;
    var before := |record.history|;
    if before <= 1 {
      return CompactReport(before, before, []);
    }
    var squashed, squashDrops := Squash(record.history, policy);
    var compacted, overflowDrops := Overflow(squashed, policy);
    record.history := compacted;
    RelinkChain(record);
    return CompactReport(before, |record.history|, squashDrops + overflowDrops);
  }
}
