/** What the squash pass and the overflow pass do to individual entries
    (crates/ft-history/src/compact.rs). */
module SquashProperties {
  import opened Wrappers
  import opened Kind
  import opened Records
  import opened Append
  import opened Compact
  import opened CompactProperties

  // --- the squash loop refines a partition into maximal runs -------------------------------------------------

  /** `e` may be absorbed at the end of `run`: both are updates of one actor, and `e` lies within the
      window of the latest instant of the run so far. */
  ghost predicate Continues(run: seq<HistoryEntry>, e: HistoryEntry, policy: CompactPolicy)
    requires run != []
  {
    && Update !in policy.preserveKinds
    && IsUpdate(run[0]) && IsUpdate(e) && e.primaryActor == run[0].primaryActor
    && e.timestamp - Latest(Times(run)) <= policy.squashUpdatesWithin
  }

  /** One entry, or a row of entries each of which continues the ones before it. */
  ghost predicate IsRun(run: seq<HistoryEntry>, policy: CompactPolicy) {
    run != [] && forall j :: 1 <= j < |run| ==> Continues(run[..j], run[j], policy)
  }

  function Flatten(parts: seq<seq<HistoryEntry>>): seq<HistoryEntry> {
    if parts == [] then [] else Flatten(parts[..|parts| - 1]) + parts[|parts| - 1]
  }

  /** The entry a run is squashed to. */
  function SquashedRun(run: seq<HistoryEntry>): HistoryEntry
    requires run != []
  {
    FoldInto(run[0], run[1..])
  }

  predicate NoneEmpty(parts: seq<seq<HistoryEntry>>) {
    forall i :: 0 <= i < |parts| ==> parts[i] != []
  }

  /** Runs that cannot be lengthened: no run is continued by the entry that starts the next one. */
  ghost predicate MaximalRuns(parts: seq<seq<HistoryEntry>>, policy: CompactPolicy) {
    && NoneEmpty(parts)
    && (forall i :: 0 <= i < |parts| ==> IsRun(parts[i], policy))
    && (forall i :: 1 <= i < |parts| ==> !Continues(parts[i - 1], parts[i][0], policy))
  }

  function SquashedRuns(parts: seq<seq<HistoryEntry>>): (r: seq<HistoryEntry>)
    requires NoneEmpty(parts)
    ensures |r| == |parts|
  {
    seq(|parts|, i requires 0 <= i < |parts| => SquashedRun(parts[i]))
  }

  lemma RunPrefix(run: seq<HistoryEntry>, policy: CompactPolicy, n: nat)
    requires IsRun(run, policy) && 1 <= n <= |run|
    ensures IsRun(run[..n], policy)
  {
    hide Continues;
    forall j | 1 <= j < n
      ensures Continues(run[..n][..j], run[..n][j], policy)
    {
      assert run[..n][..j] == run[..j];
    }
  }

  lemma SquashedSnoc(run: seq<HistoryEntry>, e: HistoryEntry)
    requires run != []
    ensures SquashedRun(run + [e]) == MergeInto(SquashedRun(run), e)
  {
    assert (run + [e])[1..] == run[1..] + [e];
    FoldIntoSnoc(run[0], run[1..], e);
  }

  lemma {:induction false} SquashedRunTime(run: seq<HistoryEntry>)
    requires run != []
    ensures SquashedRun(run).timestamp == Latest(Times(run))
    decreases |run|
  {
    var n := |run| - 1;
    if n > 0 {
      SquashedRunTime(run[..n]);
      assert run == run[..n] + [run[n]];
      SquashedSnoc(run[..n], run[n]);
      MergeConserves(SquashedRun(run[..n]), run[n]);
      assert Times(run)[..n] == Times(run[..n]);
    }
  }

  /** A squashed run carries the run's kind, actor and latest instant. */
  lemma SquashedRunShape(run: seq<HistoryEntry>, policy: CompactPolicy)
    requires IsRun(run, policy)
    ensures SquashedRun(run).timestamp == Latest(Times(run))
    ensures SquashedRun(run).primaryActor == run[0].primaryActor
    ensures EntryKind(SquashedRun(run)) == EntryKind(run[0])
  {
    SquashedRunTime(run);
    if |run| > 1 {
      assert Continues(run[..1], run[1], policy);
      assert run[0].opsSummary != [];
      FoldKeepsKind(run[0], run[1..]);
    }
  }

  /** The loop's test on squashed entries is the declarative test on the run. */
  lemma JoinsIsContinues(run: seq<HistoryEntry>, e: HistoryEntry, policy: CompactPolicy)
    requires IsRun(run, policy)
    ensures Joins(SquashedRun(run), e, policy) <==> Continues(run, e, policy)
  {
    SquashedRunShape(run, policy);
    hide EntryKind, FoldInto;
  }

  /** One entry dealt onto the runs found so far. */
  ghost function Deal(parts: seq<seq<HistoryEntry>>, e: HistoryEntry, policy: CompactPolicy)
    : (r: seq<seq<HistoryEntry>>)
    requires NoneEmpty(parts)
    ensures NoneEmpty(r)
  {
    var n := |parts| - 1;
    if parts != [] && Continues(parts[n], e, policy) then parts[..n] + [parts[n] + [e]] else parts + [[e]]
  }

  /** The runs of a history: its entries dealt one by one. */
  ghost function Runs(h: seq<HistoryEntry>, policy: CompactPolicy): (r: seq<seq<HistoryEntry>>)
    ensures NoneEmpty(r)
  {
    if h == [] then [] else Deal(Runs(h[..|h| - 1], policy), h[|h| - 1], policy)
  }

  lemma RunGrows(run: seq<HistoryEntry>, e: HistoryEntry, policy: CompactPolicy)
    requires IsRun(run, policy) && Continues(run, e, policy)
    ensures IsRun(run + [e], policy)
  {
    hide Continues;
    var r := run + [e];
    forall j | 1 <= j < |r|
      ensures Continues(r[..j], r[j], policy)
    {
      assert r[..j] == run[..j];
    }
  }

  lemma DealKeepsMaximal(parts: seq<seq<HistoryEntry>>, e: HistoryEntry, policy: CompactPolicy)
    requires MaximalRuns(parts, policy)
    ensures MaximalRuns(Deal(parts, e, policy), policy)
  {
    hide Continues;
    var n := |parts| - 1;
    if parts != [] && Continues(parts[n], e, policy) {
      RunGrows(parts[n], e, policy);
    } else {
      assert IsRun([e], policy);
    }
  }

  lemma DealFlattens(parts: seq<seq<HistoryEntry>>, e: HistoryEntry, policy: CompactPolicy)
    requires NoneEmpty(parts)
    ensures Flatten(Deal(parts, e, policy)) == Flatten(parts) + [e]
  {
    hide Continues;
    var n := |parts| - 1;
    var next := Deal(parts, e, policy);
    if |next| == |parts| {
      assert next[..n] == parts[..n];
    } else {
      assert next[..n + 1] == parts;
    }
  }

  lemma DealRefines(parts: seq<seq<HistoryEntry>>, e: HistoryEntry, policy: CompactPolicy)
    requires MaximalRuns(parts, policy)
    ensures Take(SquashedRuns(parts), e, policy) == SquashedRuns(Deal(parts, e, policy))
  {
    var n := |parts| - 1;
    if parts != [] {
      JoinsIsContinues(parts[n], e, policy);
      SquashedSnoc(parts[n], e);
    }
    hide Continues, Joins, MergeInto;
  }

  lemma {:induction false} RunsAreMaximal(h: seq<HistoryEntry>, policy: CompactPolicy)
    ensures MaximalRuns(Runs(h, policy), policy)
  {
    hide Deal, Continues;
    if h == [] {
      return;
    }
    hide MaximalRuns;
    RunsAreMaximal(h[..|h| - 1], policy);
    DealKeepsMaximal(Runs(h[..|h| - 1], policy), h[|h| - 1], policy);
  }

  lemma {:induction false} RunsFlatten(h: seq<HistoryEntry>, policy: CompactPolicy)
    ensures Flatten(Runs(h, policy)) == h
  {
    hide Deal;
    if h == [] {
      return;
    }
    hide Flatten;
    assert h[..|h| - 1] + [h[|h| - 1]] == h;
    RunsFlatten(h[..|h| - 1], policy);
    DealFlattens(Runs(h[..|h| - 1], policy), h[|h| - 1], policy);
  }

  lemma {:induction false} SquashRefinesRuns(h: seq<HistoryEntry>, policy: CompactPolicy)
    ensures Squashed(h, policy) == SquashedRuns(Runs(h, policy))
  {
    hide Take, Deal, Continues;
    if h == [] {
      return;
    }
    hide MaximalRuns, SquashedRuns, NoneEmpty;
    SquashRefinesRuns(h[..|h| - 1], policy);
    RunsAreMaximal(h[..|h| - 1], policy);
    DealRefines(Runs(h[..|h| - 1], policy), h[|h| - 1], policy);
  }

  lemma DealStarts(parts: seq<seq<HistoryEntry>>, e: HistoryEntry, policy: CompactPolicy)
    requires NoneEmpty(parts) && (parts != [] ==> !Continues(parts[|parts| - 1], e, policy))
    ensures Deal(parts, e, policy) == parts + [[e]]
  {
  }

  lemma DealContinues(parts: seq<seq<HistoryEntry>>, run: seq<HistoryEntry>, e: HistoryEntry, policy: CompactPolicy)
    requires NoneEmpty(parts + [run]) && run != [] && Continues(run, e, policy)
    ensures Deal(parts + [run], e, policy) == parts + [run + [e]]
  {
    hide Continues;
    assert (parts + [run])[..|parts|] == parts;
  }

  /** A run that nothing before it continues into is found whole. */
  lemma {:induction false} RunsOfRun(h: seq<HistoryEntry>, run: seq<HistoryEntry>, policy: CompactPolicy)
    requires IsRun(run, policy)
    requires var parts := Runs(h, policy); parts != [] ==> !Continues(parts[|parts| - 1], run[0], policy)
    ensures Runs(h + run, policy) == Runs(h, policy) + [run]
    decreases |run|
  {
    hide Continues, Deal, NoneEmpty;
    var n := |run| - 1;
    var parts := Runs(h, policy);
    assert (h + run)[..|h| + n] == h + run[..n];
    if n == 0 {
      assert h + run[..0] == h && run == [run[0]];
      DealStarts(parts, run[0], policy);
    } else {
      assert Continues(run[..n], run[n], policy);
      RunPrefix(run, policy, n);
      RunsOfRun(h, run[..n], policy);
      DealContinues(parts, run[..n], run[n], policy);
      assert run[..n] + [run[n]] == run;
    }
  }

  lemma MaximalFront(parts: seq<seq<HistoryEntry>>, policy: CompactPolicy)
    requires MaximalRuns(parts, policy) && parts != []
    ensures var n := |parts| - 1;
            && MaximalRuns(parts[..n], policy) && IsRun(parts[n], policy) && parts == parts[..n] + [parts[n]]
            && (n > 0 ==> !Continues(parts[n - 1], parts[n][0], policy))
  {
    hide Continues, IsRun;
  }

  /** Maximal runs are the runs of their own entries. */
  lemma {:induction false} RunsOfMaximal(parts: seq<seq<HistoryEntry>>, policy: CompactPolicy)
    requires MaximalRuns(parts, policy)
    ensures Runs(Flatten(parts), policy) == parts
  {
    if parts != [] {
      hide Continues, IsRun, MaximalRuns, Runs;
      var n := |parts| - 1;
      MaximalFront(parts, policy);
      RunsOfMaximal(parts[..n], policy);
      RunsOfRun(Flatten(parts[..n]), parts[n], policy);
    }
  }

  /** The squash pass in declarative terms: there is exactly one way to cut the history into maximal
      runs, and the result holds one entry for each run, in order: the fold of `merge_into` over it. */
  lemma SquashIsMaximalRuns(h: seq<HistoryEntry>, policy: CompactPolicy, parts: seq<seq<HistoryEntry>>)
    ensures MaximalRuns(parts, policy) && Flatten(parts) == h <==> parts == Runs(h, policy)
    ensures Squashed(h, policy) == SquashedRuns(Runs(h, policy))
  {
    RunsAreMaximal(h, policy);
    RunsFlatten(h, policy);
    SquashRefinesRuns(h, policy);
    if MaximalRuns(parts, policy) {
      RunsOfMaximal(parts, policy);
    }
  }

  // --- compaction stabilises ---------------------------------------------------------------------------------

  ghost predicate NothingJoins(h: seq<HistoryEntry>, policy: CompactPolicy) {
    forall i :: 1 <= i < |h| ==> !Joins(h[i - 1], h[i], policy)
  }

  lemma TakeLeavesNoJoin(kept: seq<HistoryEntry>, e: HistoryEntry, policy: CompactPolicy)
    requires NothingJoins(kept, policy)
    ensures NothingJoins(Take(kept, e, policy), policy)
  {
    hide EntryKind, MergeInto;
    var n := |kept| - 1;
    if kept != [] && Joins(kept[n], e, policy) {
      UpdateHasSummary(kept[n]);
      MergeKeepsKind(kept[n], e);
      MergeConserves(kept[n], e);
      assert n > 0 ==> !Joins(kept[n - 1], kept[n], policy);
      hide IsUpdate;
    } else {
      hide Joins;
    }
  }

  lemma {:induction false} SquashLeavesNoJoin(h: seq<HistoryEntry>, policy: CompactPolicy)
    ensures NothingJoins(Squashed(h, policy), policy)
  {
    hide Joins, Take;
    if h == [] {
      return;
    }
    hide NothingJoins;
    SquashLeavesNoJoin(h[..|h| - 1], policy);
    TakeLeavesNoJoin(Squashed(h[..|h| - 1], policy), h[|h| - 1], policy);
  }

  lemma {:induction false} SquashOfNoJoin(h: seq<HistoryEntry>, policy: CompactPolicy)
    requires NothingJoins(h, policy)
    ensures Squashed(h, policy) == h
  {
    hide Joins;
    if h != [] {
      var n := |h| - 1;
      assert NothingJoins(h[..n], policy);
      SquashOfNoJoin(h[..n], policy);
      assert h[..n] + [h[n]] == h;
      assert n > 0 ==> !Joins(h[n - 1], h[n], policy);
    }
  }

  lemma NoJoinIgnoresHashes(a: seq<HistoryEntry>, b: seq<HistoryEntry>, policy: CompactPolicy)
    requires BareAll(a) == BareAll(b) && NothingJoins(a, policy)
    ensures NothingJoins(b, policy)
  {
    forall i | 1 <= i < |b|
      ensures !Joins(b[i - 1], b[i], policy)
    {
      assert !Joins(a[i - 1], a[i], policy);
      assert BareAll(a)[i] == BareAll(b)[i] && BareAll(a)[i - 1] == BareAll(b)[i - 1];
      assert EntryKind(a[i]) == EntryKind(a[i].Bare()) == EntryKind(b[i].Bare()) == EntryKind(b[i]);
      assert EntryKind(a[i - 1]) == EntryKind(a[i - 1].Bare()) == EntryKind(b[i - 1].Bare()) == EntryKind(b[i - 1]);
    }
  }

  // --- audit-critical entries ---------------------------------------------------------------------------------

  /** The entries that are not plain updates, in order. */
  function Criticals(h: seq<HistoryEntry>): seq<HistoryEntry> {
    if h == [] then []
    else
      var n := |h| - 1;
      if IsUpdate(h[n]) then Criticals(h[..n]) else Criticals(h[..n]) + [h[n]]
  }

  lemma {:induction false} CriticalsConcat(a: seq<HistoryEntry>, b: seq<HistoryEntry>)
    ensures Criticals(a + b) == Criticals(a) + Criticals(b)
  {
    hide IsUpdate;
    if b == [] {
      assert a + b == a;
    } else {
      assert (a + b)[..|a + b| - 1] == a + b[..|b| - 1];
      CriticalsConcat(a, b[..|b| - 1]);
    }
  }

  lemma CriticalsOfOne(e: HistoryEntry)
    ensures Criticals([e]) == if IsUpdate(e) then [] else [e]
  {
    assert [e][..0] == [];
  }

  lemma {:induction false} CriticalsNone(h: seq<HistoryEntry>)
    ensures Criticals(h) == [] <==> forall i :: 0 <= i < |h| ==> IsUpdate(h[i])
  {
    hide IsUpdate;
    if h != [] {
      CriticalsNone(h[..|h| - 1]);
    }
  }

  /** A bucket of the same kind in place of an entry and the block after it. */
  lemma CriticalsOfBucket(a: seq<HistoryEntry>, dst: HistoryEntry, block: seq<HistoryEntry>, bucket: HistoryEntry,
                          b: seq<HistoryEntry>)
    requires EntryKind(bucket) == EntryKind(dst)
    ensures |Criticals(a + [bucket] + b)| == |Criticals(a + [dst] + (block + b))| - |Criticals(block)|
    ensures IsUpdate(dst) ==> Criticals(a + [bucket] + b) == Criticals(a) + Criticals(b)
    ensures IsUpdate(dst) ==> Criticals(a + [dst] + (block + b)) == Criticals(a) + (Criticals(block) + Criticals(b))
  {
    hide EntryKind, Criticals;
    CriticalsOfOne(dst);
    CriticalsOfOne(bucket);
    CriticalsConcat(a, [dst]);
    CriticalsConcat(a, [bucket]);
    CriticalsConcat(a + [dst], block + b);
    CriticalsConcat(a + [bucket], b);
    CriticalsConcat(block, b);
  }

  lemma UpdateHasSummary(e: HistoryEntry)
    requires EntryKind(e).Some?
    ensures e.opsSummary != []
  {
  }

  lemma TakeKeepsCriticals(kept: seq<HistoryEntry>, e: HistoryEntry, policy: CompactPolicy)
    ensures Criticals(Take(kept, e, policy)) == Criticals(kept) + Criticals([e])
  {
    hide EntryKind, Criticals, MergeInto;
    var n := |kept| - 1;
    if kept != [] && Joins(kept[n], e, policy) {
      assert EntryKind(MergeInto(kept[n], e)) == EntryKind(kept[n]) by {
        UpdateHasSummary(kept[n]);
        MergeKeepsKind(kept[n], e);
      }
      CriticalsOfOne(e);
      CriticalsOfBucket(kept[..n], kept[n], [], MergeInto(kept[n], e), []);
      CriticalsOfBucket(kept[..n], kept[n], [], kept[n], []);
      assert kept == kept[..n] + [kept[n]] + [];
      assert Take(kept, e, policy) == kept[..n] + [MergeInto(kept[n], e)] + [];
    } else {
      CriticalsConcat(kept, [e]);
    }
  }

  /** Squashing keeps every entry that is not an update, unchanged and in order. */
  lemma {:induction false} SquashKeepsCriticals(h: seq<HistoryEntry>, policy: CompactPolicy)
    ensures Criticals(Squashed(h, policy)) == Criticals(h)
  {
    hide Take, IsUpdate;
    if h == [] {
      assert Squashed(h, policy) == h;
    } else {
      hide Criticals;
      var n := |h| - 1;
      SquashKeepsCriticals(h[..n], policy);
      TakeKeepsCriticals(Squashed(h[..n], policy), h[n], policy);
      CriticalsConcat(h[..n], [h[n]]);
      assert h[..n] + [h[n]] == h;
    }
  }

  /** The overflow pass does not look at the kind of what it absorbs: as many critical entries are gone as
      the absorbed block has. If the bucket is an update, the others are left as they were. */
  lemma OverflowDropsBlockCriticals(h: seq<HistoryEntry>, policy: CompactPolicy, k: nat)
    requires FirstEligible(h, policy) == Some(k)
    ensures var count := OverflowCount(h, policy);
            var block := h[k + 1..k + 1 + count];
            && |Criticals(Overflowed(h, policy))| == |Criticals(h)| - |Criticals(block)|
            && (|Criticals(Overflowed(h, policy))| == |Criticals(h)| <==>
                forall i :: 0 <= i < |block| ==> IsUpdate(block[i]))
            && (IsUpdate(h[k]) ==>
                Criticals(Overflowed(h, policy)) == Criticals(h[..k]) + Criticals(h[k + 1 + count..]))
  {
    hide IsUpdate, EntryKind, FirstEligible, Criticals, FoldInto, OverflowCount;
    var count := OverflowCount(h, policy);
    var block, rest := h[k + 1..k + 1 + count], h[k + 1 + count..];
    UpdateHasSummary(h[k]);
    FoldKeepsKind(h[k], block);
    BucketOfNone(h, k);
    assert Overflowed(h, policy) == h[..k] + [FoldInto(h[k], block)] + rest;
    assert h == h[..k] + [h[k]] + (block + rest);
    CriticalsOfBucket(h[..k], h[k], block, FoldInto(h[k], block), rest);
    CriticalsNone(block);
  }

  /** The default policy, with a cap. */
  function CappedPolicy(cap: nat): CompactPolicy {
    CompactPolicy(3600, {Create, Close, TrustTransition, Supersede, Deprecate, Archive, Redact, Reopen}, Some(cap))
  }

  lemma SquashedPair(u: HistoryEntry, c: HistoryEntry, policy: CompactPolicy)
    requires !Joins(u, c, policy)
    ensures Squashed([u, c], policy) == [u, c]
  {
    hide Joins;
    SquashOfNoJoin([u, c], policy);
  }

  lemma CapShortensPair(u: HistoryEntry, c: HistoryEntry)
    requires IsUpdate(u) && EntryKind(c) == Some(Close)
    ensures Shortened([u, c], CappedPolicy(1)) == [MergeInto(u, c)]
  {
    hide EntryKind, MergeInto, Squashed, FirstEligible;
    var h, policy := [u, c], CappedPolicy(1);
    SquashedPair(u, c, policy);
    FirstEligibleUnique(h, policy, 0);
    assert h[1..2] == [c] && [c][1..] == [] && h[..0] == [] && h[2..] == [];
    assert FoldInto(u, [c]) == MergeInto(u, c);
  }

  /** Under the default kinds with a cap of one, an update swallows the close entry after it: the
      audit-critical entry is gone, and so is the credit of the identity that closed the record. */
  lemma CapSwallowsClose(u: HistoryEntry, c: HistoryEntry)
    requires IsUpdate(u) && EntryKind(c) == Some(Close)
    ensures Criticals([u, c]) == [c] && Criticals(Shortened([u, c], CappedPolicy(1))) == []
    ensures c.primaryActor !in u.contributors + c.contributors + [u.primaryActor] ==>
              c.primaryActor !in Credits(Shortened([u, c], CappedPolicy(1)))
  {
    hide EntryKind, MergeInto, Squashed, FirstEligible, Shortened, Criticals;
    CapShortensPair(u, c);
    UpdateHasSummary(u);
    MergeKeepsKind(u, c);
    CriticalsOfOne(u);
    CriticalsOfOne(MergeInto(u, c));
    CriticalsOfOne(c);
    CriticalsConcat([u], [c]);
    assert [u] + [c] == [u, c];
    MergeCredits(u, c);
    var m := MergeInto(u, c);
    assert [m][..0] == [];
    assert Credits([m]) == Gather([], EntryCredits) + EntryCredits(m);
  }

  lemma MergeCredits(dst: HistoryEntry, src: HistoryEntry)
    ensures EntryCredits(MergeInto(dst, src)) <= (set c | c in dst.contributors + src.contributors + [dst.primaryActor])
  {
    AddNewElements(dst.contributors, src.contributors, {dst.primaryActor});
  }
}
