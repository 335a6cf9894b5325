/** What a cap on the history costs (crates/ft-history/src/compact.rs, the overflow pass): when it keeps
    the audit-critical entries, when the credits, and when one compaction is enough. */
module CapProperties {
  import opened Wrappers
  import opened Kind
  import opened Records
  import opened Append
  import opened Compact
  import opened Relink
  import opened CompactProperties
  import opened SquashProperties

  /** The entries the overflow pass absorbs, and those behind them. */
  function Block(h: seq<HistoryEntry>, policy: CompactPolicy, k: nat): seq<HistoryEntry>
    requires FirstEligible(h, policy) == Some(k)
  {
    h[k + 1..k + 1 + OverflowCount(h, policy)]
  }

  function Rest(h: seq<HistoryEntry>, policy: CompactPolicy, k: nat): seq<HistoryEntry>
    requires FirstEligible(h, policy) == Some(k)
  {
    h[k + 1 + OverflowCount(h, policy)..]
  }

  lemma CutAt(h: seq<HistoryEntry>, k: nat, count: nat)
    requires k + 1 + count <= |h|
    ensures h == h[..k] + [h[k]] + (h[k + 1..k + 1 + count] + h[k + 1 + count..])
  {
  }

  lemma OverflowedIsBucketed(h: seq<HistoryEntry>, policy: CompactPolicy, k: nat)
    requires FirstEligible(h, policy) == Some(k)
    ensures Overflowed(h, policy) == Bucketed(h, k, OverflowCount(h, policy))
  {
    hide FirstEligible, OverflowCount, Bucketed;
    BucketOfNone(h, k);
  }

  /** The history before and after the pass, cut at the bucket. */
  lemma OverflowParts(h: seq<HistoryEntry>, policy: CompactPolicy, k: nat)
    requires FirstEligible(h, policy) == Some(k)
    ensures h == h[..k] + [h[k]] + (Block(h, policy, k) + Rest(h, policy, k))
    ensures Overflowed(h, policy) == h[..k] + [FoldInto(h[k], Block(h, policy, k))] + Rest(h, policy, k)
  {
    hide FoldInto, FirstEligible, OverflowCount, Overflowed, Bucketed;
    var count := OverflowCount(h, policy);
    OverflowedIsBucketed(h, policy, k);
    CutAt(h, k, count);
    BucketParts(h, k, count, h[k + 1..k + 1 + count], h[k + 1 + count..]);
  }

  lemma BucketParts(h: seq<HistoryEntry>, k: nat, count: nat, block: seq<HistoryEntry>, rest: seq<HistoryEntry>)
    requires k + 1 + count <= |h| && block == h[k + 1..k + 1 + count] && rest == h[k + 1 + count..]
    ensures Bucketed(h, k, count) == h[..k] + [FoldInto(h[k], block)] + rest
  {
    hide FoldInto;
  }

  lemma BucketKind(h: seq<HistoryEntry>, policy: CompactPolicy, k: nat, block: seq<HistoryEntry>)
    requires FirstEligible(h, policy) == Some(k)
    ensures EntryKind(FoldInto(h[k], block)) == EntryKind(h[k])
  {
    hide FirstEligible, FoldInto;
    UpdateHasSummary(h[k]);
    FoldKeepsKind(h[k], block);
  }

  // --- an absorbing entry that comes out unchanged ------------------------------------------------------------

  /** The last pull request a block names. */
  function LastPr(block: seq<HistoryEntry>): Option<nat> {
    if block == [] then None
    else if block[|block| - 1].mergedViaPr.Some? then block[|block| - 1].mergedViaPr
    else LastPr(block[..|block| - 1])
  }

  /** Nothing in the block is later, names anyone new, says anything new or counts anything. */
  predicate AddsNothing(dst: HistoryEntry, block: seq<HistoryEntry>) {
    && (LastPr(block).None? || LastPr(block) == dst.mergedViaPr)
    && forall i :: 0 <= i < |block| ==> Silent(dst, block[i])
  }

  predicate Silent(dst: HistoryEntry, e: HistoryEntry) {
    && e.timestamp <= dst.timestamp
    && (forall c :: c in e.contributors ==> c in dst.contributors || c == dst.primaryActor)
    && (forall line :: line in e.opsSummary ==> line in dst.opsSummary)
    && (e.opsCount == 0 || dst.opsCount == U32_MAX)
  }

  /** All an entry says but for the pull request. */
  function ApartFromPr(e: HistoryEntry): HistoryEntry {
    e.Bare().(mergedViaPr := None)
  }

  lemma {:induction false} AddNewKeeps<T>(acc: seq<T>, xs: seq<T>, banned: set<T>)
    ensures AddNew(acc, xs, banned) == acc <==> forall x :: x in xs ==> x in acc || x in banned
    decreases |xs|
  {
    if xs != [] {
      var next := if xs[0] in acc || xs[0] in banned then acc else acc + [xs[0]];
      AddNewExtends(next, xs[1..], banned);
      AddNewKeeps(next, xs[1..], banned);
      assert xs == [xs[0]] + xs[1..];
    }
  }

  lemma MergeLeaves(dst: HistoryEntry, src: HistoryEntry)
    ensures ApartFromPr(MergeInto(dst, src)) == ApartFromPr(dst) <==> Silent(dst, src)
  {
    AddNewKeeps(dst.contributors, src.contributors, {dst.primaryActor});
    AddNewKeeps(dst.opsSummary, src.opsSummary, {});
  }

  /** Times and counts only grow, contributors and lines are only added. */
  ghost predicate Grows(a: HistoryEntry, b: HistoryEntry) {
    && a.timestamp <= b.timestamp && a.opsCount <= b.opsCount
    && a.contributors <= b.contributors && a.opsSummary <= b.opsSummary
  }

  lemma {:induction false} FoldGrows(dst: HistoryEntry, block: seq<HistoryEntry>)
    ensures Grows(dst, FoldInto(dst, block))
    decreases |block|
  {
    if block != [] {
      AddNewExtends(dst.contributors, block[0].contributors, {dst.primaryActor});
      AddNewExtends(dst.opsSummary, block[0].opsSummary, {});
      FoldGrows(MergeInto(dst, block[0]), block[1..]);
    }
  }

  /** Growth cannot be undone. */
  lemma NoWayBack(a: HistoryEntry, b: HistoryEntry, c: HistoryEntry)
    requires Grows(a, b) && Grows(b, c) && ApartFromPr(a) == ApartFromPr(c)
    requires a.primaryActor == b.primaryActor && a.transition == b.transition
    ensures ApartFromPr(a) == ApartFromPr(b)
  {
  }

  lemma {:induction false} FoldApartFromPr(dst: HistoryEntry, block: seq<HistoryEntry>)
    ensures ApartFromPr(FoldInto(dst, block)) == ApartFromPr(dst) <==>
            forall i :: 0 <= i < |block| ==> Silent(dst, block[i])
    ensures FoldInto(dst, block).primaryActor == dst.primaryActor && FoldInto(dst, block).transition == dst.transition
  {
    if block != [] {
      var most, e := block[..|block| - 1], block[|block| - 1];
      FoldApartFromPr(dst, most);
      FoldIntoSnoc(dst, most, e);
      assert block == most + [e];
      var f := FoldInto(dst, most);
      OneMoreApart(dst, f, e, most);
      hide FoldInto, MergeInto, Silent, ApartFromPr;
      assert forall i :: 0 <= i < |most| ==> block[i] == most[i];
    }
  }

  /** The entry absorbed last. */
  lemma OneMoreApart(dst: HistoryEntry, f: HistoryEntry, e: HistoryEntry, most: seq<HistoryEntry>)
    requires f == FoldInto(dst, most) && f.primaryActor == dst.primaryActor && f.transition == dst.transition
    ensures ApartFromPr(MergeInto(f, e)) == ApartFromPr(dst) <==> ApartFromPr(f) == ApartFromPr(dst) && Silent(dst, e)
    ensures MergeInto(f, e).primaryActor == f.primaryActor && MergeInto(f, e).transition == f.transition
  {
    FoldGrows(dst, most);
    MergeLeaves(f, e);
    FoldGrows(f, [e]);
    assert FoldInto(f, [e]) == FoldInto(MergeInto(f, e), [e][1..]) == MergeInto(f, e);
    hide FoldInto, MergeInto;
    if ApartFromPr(MergeInto(f, e)) == ApartFromPr(dst) {
      NoWayBack(dst, f, MergeInto(f, e));
    }
    if ApartFromPr(f) == ApartFromPr(dst) {
      assert Silent(f, e) <==> Silent(dst, e);
    }
  }

  lemma {:induction false} FoldPr(dst: HistoryEntry, block: seq<HistoryEntry>)
    ensures FoldInto(dst, block).mergedViaPr == if LastPr(block).Some? then LastPr(block) else dst.mergedViaPr
  {
    if block != [] {
      FoldPr(dst, block[..|block| - 1]);
      FoldIntoSnoc(dst, block[..|block| - 1], block[|block| - 1]);
      assert block == block[..|block| - 1] + [block[|block| - 1]];
    }
  }

  /** When a bucket says no more than the entry it grew from. */
  lemma FoldLeaves(dst: HistoryEntry, block: seq<HistoryEntry>)
    ensures FoldInto(dst, block).Bare() == dst.Bare() <==> AddsNothing(dst, block)
  {
    FoldApartFromPr(dst, block);
    FoldPr(dst, block);
    hide FoldInto, Silent;
  }

  // --- audit-critical entries under a cap -----------------------------------------------------------------------

  /** The cap spares the critical entries: it absorbs updates only, and into an update or without a trace. */
  predicate SparesCriticals(h: seq<HistoryEntry>, policy: CompactPolicy) {
    match FirstEligible(h, policy)
    case None => true
    case Some(k) =>
      && (forall i :: 0 <= i < |Block(h, policy, k)| ==> IsUpdate(Block(h, policy, k)[i]))
      && (IsUpdate(h[k]) || AddsNothing(h[k], Block(h, policy, k)))
  }

  lemma {:induction false} CriticalsIgnoreHashes(a: seq<HistoryEntry>, b: seq<HistoryEntry>)
    requires BareAll(a) == BareAll(b)
    ensures BareAll(Criticals(a)) == BareAll(Criticals(b))
  {
    assert |a| == |BareAll(a)| == |BareAll(b)| == |b|;
    if a != [] {
      var n := |a| - 1;
      assert BareAll(a[..n]) == BareAll(a)[..n] == BareAll(b)[..n] == BareAll(b[..n]);
      CriticalsIgnoreHashes(a[..n], b[..n]);
      assert a[n].Bare() == BareAll(a)[n] == BareAll(b)[n] == b[n].Bare();
      SameKindBare(a[n], b[n]);
      hide IsUpdate;
      BareAllConcat(Criticals(a[..n]), [a[n]]);
      BareAllConcat(Criticals(b[..n]), [b[n]]);
    }
  }

  lemma SameKindBare(a: HistoryEntry, b: HistoryEntry)
    requires a.Bare() == b.Bare()
    ensures EntryKind(a) == EntryKind(b)
  {
    assert EntryKind(a) == EntryKind(a.Bare()) && EntryKind(b) == EntryKind(b.Bare());
  }

  /** The two lists of criticals, piece by piece. */
  lemma CriticalsCut(a: seq<HistoryEntry>, dst: HistoryEntry, block: seq<HistoryEntry>, bucket: HistoryEntry,
                     rest: seq<HistoryEntry>)
    ensures Criticals(a + [dst] + (block + rest))
         == Criticals(a) + Criticals([dst]) + Criticals(block) + Criticals(rest)
    ensures Criticals(a + [bucket] + rest) == Criticals(a) + Criticals([bucket]) + Criticals(rest)
  {
    hide Criticals;
    CriticalsConcat(a + [dst], block + rest);
    CriticalsConcat(a, [dst]);
    CriticalsConcat(block, rest);
    CriticalsConcat(a + [bucket], rest);
    CriticalsConcat(a, [bucket]);
  }

  /** Two lists with the same ends say the same exactly if their middles do. */
  lemma SameMiddle(a: seq<HistoryEntry>, x: seq<HistoryEntry>, y: seq<HistoryEntry>, b: seq<HistoryEntry>)
    ensures BareAll(a + x + b) == BareAll(a + y + b) <==> BareAll(x) == BareAll(y)
  {
    BareAllConcat(a + x, b);
    BareAllConcat(a, x);
    BareAllConcat(a + y, b);
    BareAllConcat(a, y);
    var p, q := BareAll(a) + BareAll(x) + BareAll(b), BareAll(a) + BareAll(y) + BareAll(b);
    if p == q {
      assert |x| == |y|;
      assert BareAll(x) == p[|a|..|a| + |x|] && BareAll(y) == q[|a|..|a| + |x|];
    }
  }

  /** The overflow pass keeps the critical entries, in order and up to hashes, exactly if it spares them. */
  lemma OverflowKeepsCriticals(h: seq<HistoryEntry>, policy: CompactPolicy)
    ensures BareAll(Criticals(Overflowed(h, policy))) == BareAll(Criticals(h)) <==> SparesCriticals(h, policy)
  {
    if FirstEligible(h, policy).Some? {
      var k := FirstEligible(h, policy).value;
      var block, rest := Block(h, policy, k), Rest(h, policy, k);
      var bucket := FoldInto(h[k], block);
      OverflowParts(h, policy, k);
      BucketKind(h, policy, k, block);
      FoldLeaves(h[k], block);
      hide IsUpdate, EntryKind, FirstEligible, Criticals, FoldInto, OverflowCount, Overflowed, Block, Rest, AddsNothing;
      CriticalsCut(h[..k], h[k], block, bucket, rest);
      CriticalsNone(block);
      CriticalsOfOne(h[k]);
      CriticalsOfOne(bucket);
      CriticalsKept(Criticals(h[..k]), h[k], bucket, IsUpdate(h[k]), Criticals(block), Criticals(rest));
    }
  }

  /** The entry in the middle, gone from both lists if it is an update. */
  function Unless(gone: bool, e: HistoryEntry): seq<HistoryEntry> {
    if gone then [] else [e]
  }

  lemma CriticalsKept(a: seq<HistoryEntry>, dst: HistoryEntry, bucket: HistoryEntry, gone: bool, z: seq<HistoryEntry>,
                      rest: seq<HistoryEntry>)
    ensures BareAll(a + Unless(gone, bucket) + rest) == BareAll(a + Unless(gone, dst) + z + rest)
            <==> z == [] && (gone || bucket.Bare() == dst.Bare())
  {
    var x, y := Unless(gone, bucket), Unless(gone, dst);
    hide Unless, BareAll;
    SameMiddle(a, x, y + z, rest);
    assert a + y + z + rest == a + (y + z) + rest;
    MiddleKept(dst, bucket, gone, z);
  }

  lemma MiddleKept(dst: HistoryEntry, bucket: HistoryEntry, gone: bool, z: seq<HistoryEntry>)
    ensures BareAll(Unless(gone, bucket)) == BareAll(Unless(gone, dst) + z)
            <==> z == [] && (gone || bucket.Bare() == dst.Bare())
  {
    var x, y := Unless(gone, bucket), Unless(gone, dst);
    assert |BareAll(y + z)| == |y| + |z|;
    if z == [] {
      assert y + z == y;
      assert !gone ==> BareAll(x)[0] == bucket.Bare() && BareAll(y)[0] == dst.Bare();
    }
  }

  // --- the whole compaction -------------------------------------------------------------------------------------

  /** A history too short to compact is not shortened either. */
  lemma ShortStays(h: seq<HistoryEntry>, policy: CompactPolicy)
    requires |h| <= 1
    ensures Squashed(h, policy) == h && Shortened(h, policy) == h
  {
    hide Squashed, FirstEligible, Joins;
    SquashOfNoJoin(h, policy);
  }

  /** Compaction says what the two passes leave. */
  lemma CompactedSays(r: RecordState, policy: CompactPolicy)
    ensures BareAll(Compacted(r, policy).history) == BareAll(Shortened(r.history, policy))
    ensures Compacted(r, policy).content == r.content
  {
    hide Shortened, RelinkedHistory;
    if |r.history| <= 1 {
      ShortStays(r.history, policy);
    } else {
      RelinkedShape(r.content, Shortened(r.history, policy));
    }
  }

  /** Under any policy compaction keeps the critical entries, in order and up to hashes, exactly if the cap spares
      them. */
  lemma CompactionKeepsCriticalsExactly(r: RecordState, policy: CompactPolicy)
    ensures BareAll(Criticals(Compacted(r, policy).history)) == BareAll(Criticals(r.history))
            <==> SparesCriticals(Squashed(r.history, policy), policy)
  {
    hide Compacted, Squashed, Overflowed, Criticals, SparesCriticals, BareAll;
    CompactedSays(r, policy);
    CriticalsIgnoreHashes(Compacted(r, policy).history, Shortened(r.history, policy));
    SquashKeepsCriticals(r.history, policy);
    OverflowKeepsCriticals(Squashed(r.history, policy), policy);
  }

  /** Two entries under a cap of one, neither of a preserved kind: the first takes the second in. */
  lemma PairUnderOne(c: HistoryEntry, u: HistoryEntry, policy: CompactPolicy)
    requires FirstEligible([c, u], policy) == Some(0) && policy.maxHistoryLen == Some(1)
    ensures OverflowCount([c, u], policy) == 1 && Block([c, u], policy, 0) == [u]
  {
    hide FirstEligible;
  }

  lemma NotSpared(c: HistoryEntry, u: HistoryEntry, policy: CompactPolicy)
    requires FirstEligible([c, u], policy) == Some(0) && policy.maxHistoryLen == Some(1)
    requires !IsUpdate(c) && u.opsCount >= 1 && c.opsCount < U32_MAX
    ensures !SparesCriticals([c, u], policy)
  {
    hide FirstEligible, IsUpdate, Block;
    PairUnderOne(c, u, policy);
    assert !Silent(c, [u][0]);
  }

  lemma OneCritical(c: HistoryEntry, u: HistoryEntry)
    requires !IsUpdate(c) && IsUpdate(u)
    ensures Criticals([c, u]) == [c]
  {
    hide IsUpdate, Criticals;
    CriticalsOfOne(c);
    CriticalsOfOne(u);
    CriticalsConcat([c], [u]);
    assert [c] + [u] == [c, u];
  }

  lemma SameNumber(c: HistoryEntry, u: HistoryEntry, policy: CompactPolicy)
    requires FirstEligible([c, u], policy) == Some(0) && policy.maxHistoryLen == Some(1)
    requires !IsUpdate(c) && IsUpdate(u)
    ensures |Criticals(Overflowed([c, u], policy))| == 1
  {
    hide IsUpdate, FirstEligible, Criticals, Overflowed, OverflowCount;
    PairUnderOne(c, u, policy);
    OverflowDropsBlockCriticals([c, u], policy, 0);
    assert [c, u][1..2] == [u];
    OneCritical(c, u);
    CriticalsOfOne(u);
  }

  /** A close entry that takes an update in is not what it was: a cap of one rewrites it, although the number of
      critical entries stays. */
  lemma CapRewritesClose(c: HistoryEntry, u: HistoryEntry)
    requires EntryKind(c) == Some(Close) && IsUpdate(u) && u.opsCount >= 1 && c.opsCount < U32_MAX
    ensures var policy := CompactPolicy(3600, {}, Some(1));
            && |Criticals(Shortened([c, u], policy))| == |Criticals([c, u])| == 1
            && BareAll(Criticals(Shortened([c, u], policy))) != BareAll(Criticals([c, u]))
  {
    var h, policy := [c, u], CompactPolicy(3600, {}, Some(1));
    assert !IsUpdate(c) && Eligible(c, policy) && !Joins(c, u, policy);
    hide EntryKind, IsUpdate, Joins, Eligible, Squashed, FirstEligible, Criticals, BareAll, Overflowed, SparesCriticals;
    SquashedPair(c, u, policy);
    FirstEligibleUnique(h, policy, 0);
    NotSpared(c, u, policy);
    OverflowKeepsCriticals(h, policy);
    SameNumber(c, u, policy);
    OneCritical(c, u);
  }

  // --- credit under a cap -----------------------------------------------------------------------------------------

  function EntryPrimary(e: HistoryEntry): set<Identity> {
    {e.primaryActor}
  }

  function EntryHelpers(e: HistoryEntry): set<Identity> {
    set c | c in e.contributors
  }

  lemma {:induction false} CreditsSplit(h: seq<HistoryEntry>)
    ensures Credits(h) == Gather(h, EntryPrimary) + Gather(h, EntryHelpers)
  {
    if h != [] {
      CreditsSplit(h[..|h| - 1]);
    }
  }

  lemma MergeHelpers(dst: HistoryEntry, src: HistoryEntry)
    ensures EntryCredits(MergeInto(dst, src)) == EntryCredits(dst) + EntryHelpers(src)
  {
    AddNewElements(dst.contributors, src.contributors, {dst.primaryActor});
  }

  /** A bucket credits its own entry's identities and the contributors of what it took in, not their primary actors. */
  lemma {:induction false} FoldHelpers(dst: HistoryEntry, block: seq<HistoryEntry>)
    ensures EntryCredits(FoldInto(dst, block)) == EntryCredits(dst) + Gather(block, EntryHelpers)
  {
    if block != [] {
      var n := |block| - 1;
      FoldHelpers(dst, block[..n]);
      FoldIntoSnoc(dst, block[..n], block[n]);
      assert block == block[..n] + [block[n]];
      hide FoldInto, MergeInto, EntryCredits, EntryHelpers;
      MergeHelpers(FoldInto(dst, block[..n]), block[n]);
    }
  }

  /** Every primary actor absorbed is credited elsewhere. */
  predicate SparesCredits(h: seq<HistoryEntry>, policy: CompactPolicy) {
    match FirstEligible(h, policy)
    case None => true
    case Some(k) =>
      var block := Block(h, policy, k);
      Gather(block, EntryPrimary) <= Credits(h[..k + 1]) + Gather(block, EntryHelpers) + Credits(Rest(h, policy, k))
  }

  lemma CreditsOfOne(e: HistoryEntry)
    ensures Credits([e]) == EntryCredits(e)
  {
    assert [e][..0] == [];
    assert Gather([e], EntryCredits) == Gather([], EntryCredits) + EntryCredits(e);
  }

  lemma CreditsCut(a: seq<HistoryEntry>, dst: HistoryEntry, block: seq<HistoryEntry>, bucket: HistoryEntry,
                   rest: seq<HistoryEntry>)
    requires EntryCredits(bucket) == EntryCredits(dst) + Gather(block, EntryHelpers)
    ensures Credits(a + [dst] + (block + rest)) == Credits(a + [dst]) + Credits(block) + Credits(rest)
    ensures Credits(a + [bucket] + rest) == Credits(a + [dst]) + Gather(block, EntryHelpers) + Credits(rest)
  {
    hide Gather, EntryCredits;
    GatherConcat(a + [dst], block + rest, EntryCredits);
    GatherConcat(block, rest, EntryCredits);
    GatherConcat(a, [dst], EntryCredits);
    GatherConcat(a + [bucket], rest, EntryCredits);
    GatherConcat(a, [bucket], EntryCredits);
    CreditsOfOne(dst);
    CreditsOfOne(bucket);
  }

  /** The overflow pass keeps every credit exactly if it spares them. */
  lemma OverflowKeepsCredits(h: seq<HistoryEntry>, policy: CompactPolicy)
    ensures Credits(Overflowed(h, policy)) == Credits(h) <==> SparesCredits(h, policy)
  {
    hide Gather, EntryCredits, FirstEligible, FoldInto, OverflowCount, Overflowed, Block, Rest;
    if FirstEligible(h, policy).Some? {
      var k := FirstEligible(h, policy).value;
      var block, rest := Block(h, policy, k), Rest(h, policy, k);
      OverflowParts(h, policy, k);
      FoldHelpers(h[k], block);
      CreditsCut(h[..k], h[k], block, FoldInto(h[k], block), rest);
      CreditsSplit(block);
      assert h[..k + 1] == h[..k] + [h[k]];
    } else {
      assert Overflowed(h, policy) == h by {
        NothingOverflows(h, policy);
      }
    }
  }

  lemma NothingOverflows(h: seq<HistoryEntry>, policy: CompactPolicy)
    requires FirstEligible(h, policy).None?
    ensures Overflowed(h, policy) == h
  {
  }

  /** Under any policy compaction keeps every credited identity exactly if the cap spares the credits. */
  lemma CompactionKeepsCreditsExactly(r: RecordState, policy: CompactPolicy)
    ensures Credits(Compacted(r, policy).history) == Credits(r.history)
            <==> SparesCredits(Squashed(r.history, policy), policy)
  {
    hide Compacted, Squashed, Overflowed, Credits, SparesCredits, BareAll, OpsSum, Times, Latest, Nondecreasing,
         CollapsesTo;
    CompactedSays(r, policy);
    GatherBare(Compacted(r, policy).history, Shortened(r.history, policy));
    var at := SquashCollapses(r.history, policy);
    CollapsesConserve(r.history, at, Squashed(r.history, policy));
    OverflowKeepsCredits(Squashed(r.history, policy), policy);
  }

  // --- the cap and the report -------------------------------------------------------------------------------------

  /** An update takes others in under every policy, an entry of another known kind unless that is preserved. */
  predicate TakesOthersIn(e: HistoryEntry, policy: CompactPolicy) {
    IsUpdate(e) || (EntryKind(e).Some? && EntryKind(e).value !in policy.preserveKinds)
  }

  /** The overflow pass reaches the cap exactly if the history fits already, or one of as many first entries as the cap
      allows takes others in. */
  lemma CapIsReached(h: seq<HistoryEntry>, policy: CompactPolicy, cap: nat)
    requires policy.maxHistoryLen == Some(cap)
    ensures |Overflowed(h, policy)| <= cap <==>
            |h| <= cap || exists i :: 0 <= i < cap && i < |h| && TakesOthersIn(h[i], policy)
    ensures |h| > cap && |Overflowed(h, policy)| <= cap ==> |Overflowed(h, policy)| == cap
  {
    forall i | 0 <= i < |h|
      ensures TakesOthersIn(h[i], policy) <==> Eligible(h[i], policy)
    {
    }
    hide EntryKind, Eligible, TakesOthersIn, FirstEligible;
  }

  /** The report: first an entry for each update squashed into its run, then one for each entry the cap took away. */
  lemma ReportTells(r: RecordState, policy: CompactPolicy)
    ensures var dropped, runs := ReportOf(r, policy).dropped, |Runs(r.history, policy)|;
            && |dropped| == |r.history| - |Compacted(r, policy).history|
            && runs <= |r.history|
            && forall i :: 0 <= i < |dropped| ==>
                 dropped[i] == if i < |r.history| - runs then SquashedUpdate else OverflowBucketed
  {
    SquashRefinesRuns(r.history, policy);
    hide Squashed, Overflowed, Runs, SquashedRuns, RelinkedHistory;
    if |r.history| <= 1 {
      ShortStays(r.history, policy);
    }
  }

  // --- the operation count ------------------------------------------------------------------------------------------

  /** A fold counts what it took in, up to what 32 bits hold. */
  lemma {:induction false} FoldCounts(dst: HistoryEntry, block: seq<HistoryEntry>)
    ensures FoldInto(dst, block).opsCount ==
            if dst.opsCount + OpsSum(block) <= U32_MAX then dst.opsCount + OpsSum(block) else U32_MAX
  {
    if block != [] {
      var n := |block| - 1;
      FoldCounts(dst, block[..n]);
      FoldIntoSnoc(dst, block[..n], block[n]);
      assert block == block[..n] + [block[n]];
      hide FoldInto;
    }
  }

  /** What the bucket counts fits in 32 bits. */
  predicate SparesCount(h: seq<HistoryEntry>, policy: CompactPolicy) {
    match FirstEligible(h, policy)
    case None => true
    case Some(k) => h[k].opsCount + OpsSum(Block(h, policy, k)) <= U32_MAX
  }

  lemma OpsCut(a: seq<HistoryEntry>, dst: HistoryEntry, block: seq<HistoryEntry>, bucket: HistoryEntry,
               rest: seq<HistoryEntry>)
    ensures OpsSum(a + [dst] + (block + rest)) == OpsSum(a) + dst.opsCount + OpsSum(block) + OpsSum(rest)
    ensures OpsSum(a + [bucket] + rest) == OpsSum(a) + bucket.opsCount + OpsSum(rest)
  {
    hide OpsSum;
    OpsSumConcat(a + [dst], block + rest);
    OpsSumConcat(block, rest);
    OpsSumConcat(a, [dst]);
    OpsSumConcat(a + [bucket], rest);
    OpsSumConcat(a, [bucket]);
    OpsSumOfOne(dst);
    OpsSumOfOne(bucket);
  }

  /** The overflow pass keeps the total operation count exactly if the bucket can hold its share. */
  lemma OverflowKeepsCount(h: seq<HistoryEntry>, policy: CompactPolicy)
    ensures OpsSum(Overflowed(h, policy)) <= OpsSum(h)
    ensures OpsSum(Overflowed(h, policy)) == OpsSum(h) <==> SparesCount(h, policy)
  {
    hide OpsSum, FirstEligible, FoldInto, OverflowCount, Overflowed, Block, Rest;
    match FirstEligible(h, policy)
    case None => NothingOverflows(h, policy);
    case Some(k) =>
      OverflowParts(h, policy, k);
      FoldCounts(h[k], Block(h, policy, k));
      OpsCut(h[..k], h[k], Block(h, policy, k), FoldInto(h[k], Block(h, policy, k)), Rest(h, policy, k));
  }

  /** What each run counts fits in 32 bits. */
  ghost predicate RunsFit(parts: seq<seq<HistoryEntry>>) {
    forall i :: 0 <= i < |parts| ==> OpsSum(parts[i]) <= U32_MAX
  }

  lemma RunCounts(run: seq<HistoryEntry>)
    requires run != []
    ensures SquashedRun(run).opsCount == if OpsSum(run) <= U32_MAX then OpsSum(run) else U32_MAX
  {
    hide OpsSum, FoldInto;
    FoldCounts(run[0], run[1..]);
    OpsSumConcat([run[0]], run[1..]);
    OpsSumOfOne(run[0]);
    assert run == [run[0]] + run[1..];
  }

  lemma {:induction false} RunsCount(parts: seq<seq<HistoryEntry>>)
    requires NoneEmpty(parts)
    ensures OpsSum(SquashedRuns(parts)) <= OpsSum(Flatten(parts))
    ensures OpsSum(SquashedRuns(parts)) == OpsSum(Flatten(parts)) <==> RunsFit(parts)
  {
    if parts != [] {
      var n := |parts| - 1;
      RunsCount(parts[..n]);
      RunCounts(parts[n]);
      OneMoreRun(parts);
      hide OpsSum, SquashedRun;
      OpsSumConcat(Flatten(parts[..n]), parts[n]);
      assert RunsFit(parts) <==> RunsFit(parts[..n]) && OpsSum(parts[n]) <= U32_MAX;
    }
  }

  lemma OneMoreRun(parts: seq<seq<HistoryEntry>>)
    requires NoneEmpty(parts) && parts != []
    ensures OpsSum(SquashedRuns(parts)) ==
            OpsSum(SquashedRuns(parts[..|parts| - 1])) + SquashedRun(parts[|parts| - 1]).opsCount
  {
    hide SquashedRun;
    assert SquashedRuns(parts)[..|parts| - 1] == SquashedRuns(parts[..|parts| - 1]);
  }

  /** The squash pass keeps it exactly if each maximal run's share fits. */
  lemma SquashKeepsCount(h: seq<HistoryEntry>, policy: CompactPolicy)
    ensures OpsSum(Squashed(h, policy)) <= OpsSum(h)
    ensures OpsSum(Squashed(h, policy)) == OpsSum(h) <==> RunsFit(Runs(h, policy))
  {
    hide Runs, Squashed, Flatten, SquashedRuns, RunsFit, OpsSum;
    SquashRefinesRuns(h, policy);
    RunsFlatten(h, policy);
    RunsCount(Runs(h, policy));
  }

  /** Under any policy compaction keeps the total operation count exactly if neither pass exceeds 32 bits. */
  lemma CompactionKeepsCountExactly(r: RecordState, policy: CompactPolicy)
    ensures OpsSum(Compacted(r, policy).history) == OpsSum(r.history) <==>
            RunsFit(Runs(r.history, policy)) && SparesCount(Squashed(r.history, policy), policy)
  {
    hide Compacted, Squashed, Overflowed, SparesCount, RunsFit, Runs, BareAll, OpsSum, Lines, Credits, Times;
    CompactedSays(r, policy);
    GatherBare(Compacted(r, policy).history, Shortened(r.history, policy));
    SquashKeepsCount(r.history, policy);
    OverflowKeepsCount(Squashed(r.history, policy), policy);
  }

  // --- compacting twice under a cap -------------------------------------------------------------------------------

  /** The entry behind those absorbed does not continue them: it is no update of the bucket's actor, or lies outside the
      window of the latest instant absorbed. */
  ghost predicate SettlesAtOnce(h: seq<HistoryEntry>, policy: CompactPolicy) {
    match FirstEligible(h, policy)
    case None => true
    case Some(k) =>
      var block, rest := Block(h, policy, k), Rest(h, policy, k);
      block == [] || rest == [] || !Continues([h[k]] + block, rest[0], policy)
  }

  /** A bucket takes in the next entry exactly if that continues what it absorbed. */
  lemma BucketContinues(dst: HistoryEntry, block: seq<HistoryEntry>, e: HistoryEntry, policy: CompactPolicy)
    requires EntryKind(dst).Some?
    ensures Joins(FoldInto(dst, block), e, policy) <==> Continues([dst] + block, e, policy)
  {
    var run := [dst] + block;
    UpdateHasSummary(dst);
    FoldKeepsKind(dst, block);
    hide EntryKind, FoldInto;
    SquashedRunTime(run);
    assert run[0] == dst && run[1..] == block;
  }

  lemma TakeAppends(kept: seq<HistoryEntry>, e: HistoryEntry, policy: CompactPolicy)
    requires |Take(kept, e, policy)| == |kept| + 1
    ensures Take(kept, e, policy) == kept + [e]
  {
    hide Joins, MergeInto;
  }

  lemma {:induction false} SquashOfSameLength(h: seq<HistoryEntry>, policy: CompactPolicy)
    requires |Squashed(h, policy)| == |h|
    ensures Squashed(h, policy) == h
  {
    hide Take;
    if h != [] {
      var most, e := h[..|h| - 1], h[|h| - 1];
      assert Squashed(h, policy) == Take(Squashed(most, policy), e, policy);
      hide Squashed;
      SquashOfSameLength(most, policy);
      TakeAppends(most, e, policy);
      assert h == most + [e];
    }
  }

  /** Squashing shortens a history exactly if neighbours join. */
  lemma SquashShortens(h: seq<HistoryEntry>, policy: CompactPolicy)
    ensures NothingJoins(h, policy) <==> |Squashed(h, policy)| == |h|
  {
    hide NothingJoins, Squashed;
    if NothingJoins(h, policy) {
      SquashOfNoJoin(h, policy);
    }
    if |Squashed(h, policy)| == |h| {
      SquashOfSameLength(h, policy);
      SquashLeavesNoJoin(h, policy);
    }
  }

  /** A bucket is of the kind and actor of its own entry, and no earlier. */
  lemma BucketJoinsNoSooner(prev: HistoryEntry, dst: HistoryEntry, block: seq<HistoryEntry>, policy: CompactPolicy)
    requires dst.opsSummary != [] && !Joins(prev, dst, policy)
    ensures !Joins(prev, FoldInto(dst, block), policy)
  {
    FoldKeepsKind(dst, block);
    FoldGrows(dst, block);
    hide EntryKind, FoldInto;
  }

  /** After the pass, neighbours can join only at the bucket. */
  lemma OnlyBucketJoins(h: seq<HistoryEntry>, policy: CompactPolicy, k: nat)
    requires FirstEligible(h, policy) == Some(k) && NothingJoins(h, policy)
    ensures var block, rest := Block(h, policy, k), Rest(h, policy, k);
            NothingJoins(Overflowed(h, policy), policy) <==>
            rest == [] || !Continues([h[k]] + block, rest[0], policy)
  {
    var block, rest := Block(h, policy, k), Rest(h, policy, k);
    var bucket := FoldInto(h[k], block);
    OverflowParts(h, policy, k);
    UpdateHasSummary(h[k]);
    if k > 0 {
      BucketJoinsNoSooner(h[k - 1], h[k], block, policy);
    }
    if rest != [] {
      BucketContinues(h[k], block, rest[0], policy);
    }
    hide Joins, Continues, FoldInto, FirstEligible, EntryKind, Overflowed, OverflowCount;
    SplicedJoins(h[..k], h[k], block, bucket, rest, policy);
  }

  lemma SplicedJoins(a: seq<HistoryEntry>, dst: HistoryEntry, block: seq<HistoryEntry>, bucket: HistoryEntry,
                     rest: seq<HistoryEntry>, policy: CompactPolicy)
    requires NothingJoins(a + [dst] + (block + rest), policy)
    requires a != [] ==> !Joins(a[|a| - 1], bucket, policy)
    ensures NothingJoins(a + [bucket] + rest, policy) <==> rest == [] || !Joins(bucket, rest[0], policy)
  {
    hide Joins;
    var h, g := a + [dst] + (block + rest), a + [bucket] + rest;
    var n, m := |a|, |block|;
    assert rest != [] ==> g[n] == bucket && g[n + 1] == rest[0];
    if rest == [] || !Joins(bucket, rest[0], policy) {
      forall i | 1 <= i < |g|
        ensures !Joins(g[i - 1], g[i], policy)
      {
        if i < n {
          assert g[i] == h[i] && g[i - 1] == h[i - 1];
        } else if i > n + 1 {
          assert g[i] == h[i + m] && g[i - 1] == h[i + m - 1];
        }
      }
    }
  }

  /** The pass leaves nothing more to absorb. */
  lemma OverflowOnce(h: seq<HistoryEntry>, policy: CompactPolicy)
    ensures OverflowCount(Overflowed(h, policy), policy) == 0
  {
    if FirstEligible(h, policy).Some? {
      BucketOfNone(h, FirstEligible(h, policy).value);
      BucketStaysFirst(h, policy, FirstEligible(h, policy).value, OverflowCount(h, policy));
    }
    hide FirstEligible, Bucketed;
  }

  lemma EligibleIgnoresHashes(a: seq<HistoryEntry>, b: seq<HistoryEntry>, policy: CompactPolicy, i: nat)
    requires BareAll(a) == BareAll(b) && i < |a| && i < |b|
    ensures Eligible(a[i], policy) <==> Eligible(b[i], policy)
  {
    assert a[i].Bare() == BareAll(a)[i] == BareAll(b)[i] == b[i].Bare();
    SameKindBare(a[i], b[i]);
    hide EntryKind;
  }

  lemma FirstEligibleIgnoresHashes(a: seq<HistoryEntry>, b: seq<HistoryEntry>, policy: CompactPolicy)
    requires BareAll(a) == BareAll(b)
    ensures FirstEligible(a, policy) == FirstEligible(b, policy)
  {
    hide Eligible, FirstEligible;
    assert |a| == |BareAll(a)| == |BareAll(b)| == |b|;
    forall i | 0 <= i < |a|
      ensures Eligible(a[i], policy) <==> Eligible(b[i], policy)
    {
      EligibleIgnoresHashes(a, b, policy, i);
    }
  }

  lemma JoinsNothingBare(a: seq<HistoryEntry>, b: seq<HistoryEntry>, policy: CompactPolicy)
    requires BareAll(a) == BareAll(b)
    ensures NothingJoins(a, policy) <==> NothingJoins(b, policy)
  {
    hide NothingJoins, BareAll;
    if NothingJoins(a, policy) {
      NoJoinIgnoresHashes(a, b, policy);
    }
    if NothingJoins(b, policy) {
      NoJoinIgnoresHashes(b, a, policy);
    }
  }

  /** With nothing left to absorb, compaction leaves a history exactly if no neighbours join. */
  lemma ShortenedStays(h: seq<HistoryEntry>, policy: CompactPolicy)
    requires OverflowCount(h, policy) == 0
    ensures NothingJoins(h, policy) ==> Shortened(h, policy) == h
    ensures !NothingJoins(h, policy) ==> |Shortened(h, policy)| < |h|
  {
    hide NothingJoins, Squashed, FirstEligible;
    SquashShortens(h, policy);
    if NothingJoins(h, policy) {
      SquashOfNoJoin(h, policy);
    }
  }

  /** Two passes in a row, on the history alone. */
  lemma SettlesMeans(s: seq<HistoryEntry>, policy: CompactPolicy)
    requires NothingJoins(s, policy)
    ensures NothingJoins(Overflowed(s, policy), policy) <==> SettlesAtOnce(s, policy)
  {
    hide NothingJoins, Continues, FirstEligible, Overflowed;
    match FirstEligible(s, policy)
    case None => NothingOverflows(s, policy);
    case Some(k) =>
      OnlyBucketJoins(s, policy, k);
      if Block(s, policy, k) == [] {
        EmptyBlock(s, policy, k);
      }
  }

  lemma EmptyBlock(s: seq<HistoryEntry>, policy: CompactPolicy, k: nat)
    requires FirstEligible(s, policy) == Some(k) && Block(s, policy, k) == []
    ensures Overflowed(s, policy) == s
  {
    hide FirstEligible, OverflowCount;
    OverflowParts(s, policy, k);
  }

  /** A second compaction under the same policy changes nothing, and reports nothing, exactly if the first one's bucket
      does not reach the entry behind it. */
  lemma CompactionStabilises(r: RecordState, policy: CompactPolicy)
    ensures Compacted(Compacted(r, policy), policy) == Compacted(r, policy) <==>
            SettlesAtOnce(Squashed(r.history, policy), policy)
    ensures ReportOf(Compacted(r, policy), policy).dropped == [] <==> SettlesAtOnce(Squashed(r.history, policy), policy)
  {
    var s := Squashed(r.history, policy);
    var b := Overflowed(s, policy);
    var x := Compacted(r, policy);
    SquashLeavesNoJoin(r.history, policy);
    SettlesMeans(s, policy);
    OverflowOnce(s, policy);
    CompactedSays(r, policy);
    CompactedIsRelinked(r, policy);
    SameCount(x.history, b, policy);
    JoinsNothingBare(x.history, b, policy);
    ShortenedStays(x.history, policy);
    SecondTime(x, policy);
  }

  lemma NoCapSettles(h: seq<HistoryEntry>, policy: CompactPolicy)
    requires policy.maxHistoryLen.None?
    ensures SettlesAtOnce(h, policy)
  {
    hide FirstEligible, Continues;
  }

  /** Without a cap one compaction is enough: a second one changes nothing and reports nothing. */
  lemma UncappedStabilises(r: RecordState, policy: CompactPolicy)
    requires policy.maxHistoryLen.None?
    ensures Compacted(Compacted(r, policy), policy) == Compacted(r, policy)
    ensures ReportOf(Compacted(r, policy), policy).dropped == []
  {
    hide Compacted, Squashed, SettlesAtOnce, ReportOf;
    NoCapSettles(Squashed(r.history, policy), policy);
    CompactionStabilises(r, policy);
  }

  lemma SameCount(a: seq<HistoryEntry>, b: seq<HistoryEntry>, policy: CompactPolicy)
    requires BareAll(a) == BareAll(b)
    ensures OverflowCount(a, policy) == OverflowCount(b, policy)
  {
    hide FirstEligible;
    FirstEligibleIgnoresHashes(a, b, policy);
    assert |BareAll(a)| == |a| && |BareAll(b)| == |b|;
  }

  /** Unless it was too short to touch, a compacted record is as relinking leaves it. */
  lemma CompactedIsRelinked(r: RecordState, policy: CompactPolicy)
    ensures |Compacted(r, policy).history| > 1 ==> Relinked(Compacted(r, policy)) == Compacted(r, policy)
  {
    hide Relinked, Shortened;
    if |r.history| > 1 {
      RelinkIsIdempotent(r.(history := Shortened(r.history, policy)));
    }
  }

  lemma SecondTime(x: RecordState, policy: CompactPolicy)
    requires |x.history| > 1 ==> Relinked(x) == x
    requires Shortened(x.history, policy) == x.history || |Shortened(x.history, policy)| < |x.history|
    ensures Compacted(x, policy) == x <==> Shortened(x.history, policy) == x.history
    ensures ReportOf(x, policy).dropped == [] <==> Shortened(x.history, policy) == x.history
  {
    hide RelinkedHistory, Squashed, Overflowed;
    if |x.history| <= 1 {
      ShortStays(x.history, policy);
    } else {
      assert x.(history := x.history) == x;
    }
  }

  lemma AlternatingActors(a: HistoryEntry, b: HistoryEntry, c: HistoryEntry, policy: CompactPolicy)
    requires IsUpdate(a) && IsUpdate(b) && IsUpdate(c)
    requires a.primaryActor == c.primaryActor != b.primaryActor && Update !in policy.preserveKinds
    ensures NothingJoins([a, b, c], policy) && FirstEligible([a, b, c], policy) == Some(0)
  {
    hide EntryKind, FirstEligible;
    FirstEligibleUnique([a, b, c], policy, 0);
  }

  /** Two actors in turn under a cap of two: the second pass squashes the third update into the bucket. */
  lemma TwoPassesNeeded(r: RecordState, policy: CompactPolicy)
    requires |r.history| == 3 && IsUpdate(r.history[0]) && IsUpdate(r.history[1]) && IsUpdate(r.history[2])
    requires policy.maxHistoryLen == Some(2) && Update !in policy.preserveKinds
    requires r.history[0].primaryActor == r.history[2].primaryActor != r.history[1].primaryActor
    requires r.history[2].timestamp - Max(r.history[0].timestamp, r.history[1].timestamp) <= policy.squashUpdatesWithin
    ensures Compacted(Compacted(r, policy), policy) != Compacted(r, policy)
  {
    hide IsUpdate, Squashed, FirstEligible, Compacted, SettlesAtOnce, Joins;
    var a, b, c := r.history[0], r.history[1], r.history[2];
    assert r.history == [a, b, c];
    AlternatingActors(a, b, c, policy);
    SquashOfNoJoin([a, b, c], policy);
    assert Latest(Times([a, b])) == Max(a.timestamp, b.timestamp) by {
      assert Times([a, b])[..1] == Times([a]);
    }
    ThreeUnderTwo([a, b, c], policy);
    CompactionStabilises(r, policy);
  }

  lemma ThreeUnderTwo(h: seq<HistoryEntry>, policy: CompactPolicy)
    requires |h| == 3 && policy.maxHistoryLen == Some(2) && FirstEligible(h, policy) == Some(0)
    ensures SettlesAtOnce(h, policy) <==> !Continues([h[0], h[1]], h[2], policy)
  {
    hide FirstEligible, Continues;
    assert [h[0]] + [h[1]] == [h[0], h[1]];
    assert Block(h, policy, 0) == [h[1]] && Rest(h, policy, 0) == [h[2]];
  }
}
