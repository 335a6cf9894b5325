/** What compaction guarantees (crates/ft-history/src/compact.rs). */
module CompactProperties {
  import opened Records
  import opened Append
  import opened Compact
  import opened Relink

  // --- both passes only ever merge neighbours -----------------------------------------------------------

  function Collapse(h: seq<HistoryEntry>, i: nat): (r: seq<HistoryEntry>)
    requires i + 1 < |h|
    ensures |r| == |h| - 1
  {
    h[..i] + [MergeInto(h[i], h[i + 1])] + h[i + 2..]
  }

  /** A run of neighbour merges at the given places. */
  ghost predicate CollapsesTo(h: seq<HistoryEntry>, at: seq<nat>, r: seq<HistoryEntry>)
    decreases |at|
  {
    if at == [] then h == r
    else at[0] + 1 < |h| && CollapsesTo(Collapse(h, at[0]), at[1..], r)
  }

  /** Every merge of the run is between entries of one primary actor. */
  ghost predicate SameActors(h: seq<HistoryEntry>, at: seq<nat>)
    decreases |at|
  {
    at == [] || (at[0] + 1 < |h| && h[at[0]].primaryActor == h[at[0] + 1].primaryActor
                 && SameActors(Collapse(h, at[0]), at[1..]))
  }

  lemma {:induction false} CollapsesConcat(h: seq<HistoryEntry>, at: seq<nat>, m: seq<HistoryEntry>, bt: seq<nat>,
                                           r: seq<HistoryEntry>)
    requires CollapsesTo(h, at, m) && CollapsesTo(m, bt, r)
    ensures CollapsesTo(h, at + bt, r)
    decreases |at|
  {
    if at == [] {
      assert at + bt == bt;
    } else {
      CollapsesConcat(Collapse(h, at[0]), at[1..], m, bt, r);
      assert (at + bt)[1..] == at[1..] + bt;
    }
  }

  /** Merges among the first entries leave a last entry alone. */
  lemma {:induction false} CollapsesBefore(h: seq<HistoryEntry>, at: seq<nat>, r: seq<HistoryEntry>, e: HistoryEntry)
    requires CollapsesTo(h, at, r) && SameActors(h, at)
    ensures CollapsesTo(h + [e], at, r + [e]) && SameActors(h + [e], at)
    decreases |at|
  {
    hide MergeInto;
    if at != [] {
      CollapsesBefore(Collapse(h, at[0]), at[1..], r, e);
      assert Collapse(h + [e], at[0]) == Collapse(h, at[0]) + [e];
    }
  }

  lemma {:induction false} SameActorsConcat(h: seq<HistoryEntry>, at: seq<nat>, m: seq<HistoryEntry>, bt: seq<nat>)
    requires CollapsesTo(h, at, m) && SameActors(h, at) && SameActors(m, bt)
    ensures SameActors(h, at + bt)
    decreases |at|
  {
    hide Collapse;
    if at == [] {
      assert at + bt == bt;
    } else {
      SameActorsConcat(Collapse(h, at[0]), at[1..], m, bt);
      assert (at + bt)[1..] == at[1..] + bt;
    }
  }

  lemma TakeCollapses(kept: seq<HistoryEntry>, e: HistoryEntry, policy: CompactPolicy) returns (at: seq<nat>)
    ensures CollapsesTo(kept + [e], at, Take(kept, e, policy)) && SameActors(kept + [e], at)
  {
    hide EntryKind, MergeInto;
    at := [];
    if kept != [] && Joins(kept[|kept| - 1], e, policy) {
      var n := |kept| - 1;
      at := [n];
      assert at[1..] == [];
      assert Collapse(kept + [e], n) == Take(kept, e, policy);
    }
  }

  lemma {:induction false} SquashCollapses(h: seq<HistoryEntry>, policy: CompactPolicy) returns (at: seq<nat>)
    ensures CollapsesTo(h, at, Squashed(h, policy)) && SameActors(h, at)
  {
    hide Take;
    at := [];
    if h != [] {
      var n := |h| - 1;
      at := SquashCollapses(h[..n], policy);
      var kept := Squashed(h[..n], policy);
      CollapsesBefore(h[..n], at, kept, h[n]);
      assert h[..n] + [h[n]] == h;
      var bt := TakeCollapses(kept, h[n], policy);
      CollapsesConcat(h, at, kept + [h[n]], bt, Squashed(h, policy));
      SameActorsConcat(h, at, kept + [h[n]], bt);
      at := at + bt;
    }
  }

  lemma {:induction false} BucketCollapses(h: seq<HistoryEntry>, k: nat, count: nat) returns (at: seq<nat>)
    requires k + 1 + count <= |h|
    ensures CollapsesTo(h, at, Bucketed(h, k, count))
    decreases count
  {
    at := [];
    if count == 0 {
      BucketOfNone(h, k);
    } else {
      hide MergeInto, FoldInto;
      at := BucketCollapses(h, k, count - 1);
      BucketGrows(h, k, count - 1);
      var b := Bucketed(h, k, count - 1);
      assert CollapsesTo(Collapse(b, k), [], Bucketed(h, k, count));
      assert [k][1..] == [];
      assert CollapsesTo(b, [k], Bucketed(h, k, count));
      CollapsesConcat(h, at, b, [k], Bucketed(h, k, count));
      at := at + [k];
    }
  }

  lemma ShortenedCollapses(h: seq<HistoryEntry>, policy: CompactPolicy) returns (at: seq<nat>)
    ensures CollapsesTo(h, at, Shortened(h, policy))
    ensures policy.maxHistoryLen.None? ==> SameActors(h, at)
  {
    var s := Squashed(h, policy);
    at := SquashCollapses(h, policy);
    var count := OverflowCount(s, policy);
    if count != 0 {
      var bt := BucketCollapses(s, FirstEligible(s, policy).value, count);
      CollapsesConcat(h, at, s, bt, Shortened(h, policy));
      at := at + bt;
    }
  }

  // --- what a merge of neighbours conserves ---------------------------------------------------------------

  function OpsSum(h: seq<HistoryEntry>): nat {
    if h == [] then 0 else OpsSum(h[..|h| - 1]) + h[|h| - 1].opsCount
  }

  /** The union of what `f` finds in each entry. */
  function Gather(h: seq<HistoryEntry>, f: HistoryEntry -> set<string>): set<string> {
    if h == [] then {} else Gather(h[..|h| - 1], f) + f(h[|h| - 1])
  }

  function EntryLines(e: HistoryEntry): set<string> {
    set line | line in e.opsSummary
  }

  function EntryCredits(e: HistoryEntry): set<Identity> {
    {e.primaryActor} + set c | c in e.contributors
  }

  /** Every summary line of a history, and every identity credited in it. */
  function Lines(h: seq<HistoryEntry>): set<string> {
    Gather(h, EntryLines)
  }

  function Credits(h: seq<HistoryEntry>): set<Identity> {
    Gather(h, EntryCredits)
  }

  function Times(h: seq<HistoryEntry>): (ts: seq<Timestamp>)
    ensures |ts| == |h| && forall i :: 0 <= i < |h| ==> ts[i] == h[i].timestamp
  {
    seq(|h|, i requires 0 <= i < |h| => h[i].timestamp)
  }

  /** The latest of some instants. */
  function Latest(ts: seq<Timestamp>): Timestamp
    requires ts != []
  {
    if |ts| == 1 then ts[0] else Max(Latest(ts[..|ts| - 1]), ts[|ts| - 1])
  }

  predicate Nondecreasing(ts: seq<Timestamp>) {
    forall i, j :: 0 <= i < j < |ts| ==> ts[i] <= ts[j]
  }

  lemma {:induction false} OpsSumConcat(a: seq<HistoryEntry>, b: seq<HistoryEntry>)
    ensures OpsSum(a + b) == OpsSum(a) + OpsSum(b)
  {
    if b == [] {
      assert a + b == a;
    } else {
      assert (a + b)[..|a + b| - 1] == a + b[..|b| - 1];
      OpsSumConcat(a, b[..|b| - 1]);
    }
  }

  lemma OpsSumOfOne(e: HistoryEntry)
    ensures OpsSum([e]) == e.opsCount
  {
    assert [e][..0] == [];
  }

  lemma {:induction false} GatherConcat(a: seq<HistoryEntry>, b: seq<HistoryEntry>, f: HistoryEntry -> set<string>)
    ensures Gather(a + b, f) == Gather(a, f) + Gather(b, f)
  {
    if b == [] {
      assert a + b == a;
    } else {
      assert (a + b)[..|a + b| - 1] == a + b[..|b| - 1];
      GatherConcat(a, b[..|b| - 1], f);
    }
  }

  lemma {:induction false} LatestBounds(ts: seq<Timestamp>) returns (at: nat)
    requires ts != []
    ensures at < |ts| && ts[at] == Latest(ts)
    ensures forall i :: 0 <= i < |ts| ==> ts[i] <= Latest(ts)
  {
    at := |ts| - 1;
    if at > 0 {
      var k := LatestBounds(ts[..at]);
      assert forall i :: 0 <= i < at ==> ts[..at][i] == ts[i];
      at := if ts[at] < Latest(ts[..at]) then k else at;
    }
  }

  lemma {:induction false} AddNewElements<T>(acc: seq<T>, xs: seq<T>, banned: set<T>)
    ensures forall x :: x in AddNew(acc, xs, banned) <==> x in acc || (x in xs && x !in banned)
    decreases |xs|
  {
    if xs != [] {
      AddNewElements(if xs[0] in acc || xs[0] in banned then acc else acc + [xs[0]], xs[1..], banned);
      assert forall x :: x in xs <==> x == xs[0] || x in xs[1..];
    }
  }

  lemma MergeConserves(dst: HistoryEntry, src: HistoryEntry)
    ensures EntryLines(MergeInto(dst, src)) == EntryLines(dst) + EntryLines(src)
    ensures EntryCredits(MergeInto(dst, src)) + {src.primaryActor} == EntryCredits(dst) + EntryCredits(src)
    ensures MergeInto(dst, src).opsCount <= dst.opsCount + src.opsCount
    ensures dst.opsCount + src.opsCount <= U32_MAX ==> MergeInto(dst, src).opsCount == dst.opsCount + src.opsCount
    ensures MergeInto(dst, src).timestamp == Max(dst.timestamp, src.timestamp)
  {
    AddNewElements(dst.contributors, src.contributors, {dst.primaryActor});
    AddNewElements(dst.opsSummary, src.opsSummary, {});
  }

  lemma CollapseSplit(h: seq<HistoryEntry>, i: nat)
    requires i + 1 < |h|
    ensures h == h[..i] + ([h[i], h[i + 1]] + h[i + 2..])
    ensures Collapse(h, i) == h[..i] + ([MergeInto(h[i], h[i + 1])] + h[i + 2..])
  {
  }

  lemma CollapseGather(h: seq<HistoryEntry>, i: nat, f: HistoryEntry -> set<string>)
    requires i + 1 < |h| && f(MergeInto(h[i], h[i + 1])) == f(h[i]) + f(h[i + 1])
    ensures Gather(Collapse(h, i), f) == Gather(h, f)
  {
    hide MergeInto;
    var a, b, m := h[i], h[i + 1], MergeInto(h[i], h[i + 1]);
    var rest := h[i + 2..];
    CollapseSplit(h, i);
    GatherConcat(h[..i], [a, b] + rest, f);
    GatherConcat(h[..i], [m] + rest, f);
    GatherConcat([a, b], rest, f);
    GatherConcat([m], rest, f);
    assert [a, b][..1] == [a] && [a][..0] == [] && [m][..0] == [];
    assert Gather([a, b], f) == Gather([a], f) + f(b);
  }

  lemma CollapseOps(h: seq<HistoryEntry>, i: nat)
    requires i + 1 < |h|
    ensures OpsSum(Collapse(h, i)) <= OpsSum(h)
    ensures OpsSum(h) <= U32_MAX ==> OpsSum(Collapse(h, i)) == OpsSum(h)
  {
    MergeConserves(h[i], h[i + 1]);
    hide MergeInto;
    var a, b, m := h[i], h[i + 1], MergeInto(h[i], h[i + 1]);
    var rest := h[i + 2..];
    CollapseSplit(h, i);
    OpsSumConcat(h[..i], [a, b] + rest);
    OpsSumConcat(h[..i], [m] + rest);
    OpsSumConcat([a, b], rest);
    OpsSumConcat([m], rest);
    OpsSumOfOne(a);
    OpsSumOfOne(m);
    assert [a, b][..1] == [a];
  }

  lemma SpliceTimes(ts: seq<Timestamp>, i: nat, us: seq<Timestamp>)
    requires i + 1 < |ts| && us == ts[..i] + [Max(ts[i], ts[i + 1])] + ts[i + 2..]
    ensures Latest(us) == Latest(ts)
    ensures Nondecreasing(ts) ==> Nondecreasing(us)
  {
    hide Latest;
    assert forall j :: 0 <= j < |us| ==>
      us[j] == (if j < i then ts[j] else if j == i then Max(ts[i], ts[i + 1]) else ts[j + 1]);
    var j := LatestBounds(ts);
    var k := LatestBounds(us);
    assert us[if j <= i then j else j - 1] == Latest(ts);
  }

  lemma CollapseTimes(h: seq<HistoryEntry>, i: nat)
    requires i + 1 < |h|
    ensures Times(Collapse(h, i)) == Times(h)[..i] + [Max(h[i].timestamp, h[i + 1].timestamp)] + Times(h)[i + 2..]
  {
    MergeConserves(h[i], h[i + 1]);
  }

  /** One merge of neighbours. */
  lemma CollapseConserves(h: seq<HistoryEntry>, i: nat)
    requires i + 1 < |h|
    ensures OpsSum(Collapse(h, i)) <= OpsSum(h) && (OpsSum(h) <= U32_MAX ==> OpsSum(Collapse(h, i)) == OpsSum(h))
    ensures Lines(Collapse(h, i)) == Lines(h) && Latest(Times(Collapse(h, i))) == Latest(Times(h))
    ensures Nondecreasing(Times(h)) ==> Nondecreasing(Times(Collapse(h, i)))
    ensures h[i].primaryActor == h[i + 1].primaryActor ==> Credits(Collapse(h, i)) == Credits(h)
  {
    MergeConserves(h[i], h[i + 1]);
    hide OpsSum, Gather, Latest, Nondecreasing, MergeInto, Collapse;
    CollapseOps(h, i);
    CollapseGather(h, i, EntryLines);
    CollapseTimes(h, i);
    SpliceTimes(Times(h), i, Times(Collapse(h, i)));
    if h[i].primaryActor == h[i + 1].primaryActor {
      CollapseGather(h, i, EntryCredits);
    }
  }

  lemma {:induction false} CollapsesConserve(h: seq<HistoryEntry>, at: seq<nat>, r: seq<HistoryEntry>)
    requires CollapsesTo(h, at, r)
    ensures |r| == |h| - |at|
    ensures OpsSum(r) <= OpsSum(h)
    ensures OpsSum(h) <= U32_MAX ==> OpsSum(r) == OpsSum(h)
    ensures Lines(r) == Lines(h)
    ensures h != [] ==> r != [] && Latest(Times(r)) == Latest(Times(h))
    ensures Nondecreasing(Times(h)) ==> Nondecreasing(Times(r))
    ensures SameActors(h, at) ==> Credits(r) == Credits(h)
    decreases |at|
  {
    hide OpsSum, Gather, Times, Latest, Nondecreasing, MergeInto;
    if at != [] {
      CollapseConserves(h, at[0]);
      hide Collapse;
      CollapsesConserve(Collapse(h, at[0]), at[1..], r);
    }
  }

  lemma {:induction false} GatherBare(h: seq<HistoryEntry>, g: seq<HistoryEntry>)
    requires BareAll(h) == BareAll(g)
    ensures OpsSum(h) == OpsSum(g) && Lines(h) == Lines(g) && Credits(h) == Credits(g)
    ensures Times(h) == Times(g)
  {
    assert forall i :: 0 <= i < |h| ==> BareAll(h)[i] == h[i].Bare() && BareAll(g)[i] == g[i].Bare();
    if h != [] {
      var n := |h| - 1;
      assert BareAll(h[..n]) == BareAll(h)[..n] == BareAll(g)[..n] == BareAll(g[..n]);
      GatherBare(h[..n], g[..n]);
      assert h[n].Bare() == g[n].Bare();
    }
  }

  /** Conservation under any policy. Compaction keeps the number of operations (as far as a 32-bit
      counter can hold it), every summary line, the latest instant and the order of instants; it
      reports one reason per entry gone; and without a cap it keeps every credited identity. */
  lemma CompactionConserves(r: RecordState, policy: CompactPolicy)
    ensures var h, g := r.history, Compacted(r, policy).history;
            && OpsSum(g) <= OpsSum(h)
            && (OpsSum(h) <= U32_MAX ==> OpsSum(g) == OpsSum(h))
            && Lines(g) == Lines(h)
            && (h != [] ==> g != [] && Latest(Times(g)) == Latest(Times(h)))
            && (Nondecreasing(Times(h)) ==> Nondecreasing(Times(g)))
            && (policy.maxHistoryLen.None? ==> Credits(g) == Credits(h))
    ensures var report := ReportOf(r, policy);
            && report.entriesBefore == |r.history|
            && report.entriesAfter == |Compacted(r, policy).history|
            && |report.dropped| == report.entriesBefore - report.entriesAfter
    ensures Compacted(r, policy).content == r.content
  {
    if |r.history| > 1 {
      var at := ShortenedCollapses(r.history, policy);
      var s := Shortened(r.history, policy);
      CollapsesConserve(r.history, at, s);
      RelinkedShape(r.content, s);
      GatherBare(RelinkedHistory(r.content, s), s);
    }
  }
}
