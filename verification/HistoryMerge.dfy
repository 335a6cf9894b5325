/** What merging two histories does (crates/ft-pr/src/merge.rs, `merge_history`). */
module HistoryMerge {
  import opened Records
  import opened Compact
  import opened CompactProperties
  import opened Commitment
  import opened Sorting
  import opened Merge

  /** The length of the longest common prefix. */
  function CommonPrefix(a: seq<HistoryEntry>, b: seq<HistoryEntry>): (k: nat)
    ensures k <= |a| && k <= |b| && a[..k] == b[..k]
    ensures k < |a| && k < |b| ==> a[k] != b[k]
    decreases |a|
  {
    if a == [] || b == [] || a[0] != b[0] then 0
    else
      var k := CommonPrefix(a[1..], b[1..]);
      assert a[..k + 1] == [a[0]] + a[1..][..k] && b[..k + 1] == [b[0]] + b[1..][..k];
      k + 1
  }

  lemma {:induction false} CommonPrefixSymmetric(a: seq<HistoryEntry>, b: seq<HistoryEntry>)
    ensures CommonPrefix(a, b) == CommonPrefix(b, a)
    decreases |a|
  {
    if a != [] && b != [] {
      CommonPrefixSymmetric(a[1..], b[1..]);
    }
  }

  lemma CommonPrefixIsLongest(a: seq<HistoryEntry>, b: seq<HistoryEntry>, n: nat)
    requires n <= |a| && n <= |b|
    ensures a[..n] == b[..n] <==> n <= CommonPrefix(a, b)
  {
    var k := CommonPrefix(a, b);
    if n <= k {
      assert a[..n] == a[..k][..n] == b[..k][..n] == b[..n];
    } else {
      assert a[..n][k] == a[k] && b[..n][k] == b[k];
    }
  }

  lemma CommittedPrefix(h: seq<HistoryEntry>, n: nat)
    requires Committed(h) && n <= |h|
    ensures Committed(h[..n])
  {
    forall i | 0 <= i < n
      ensures CommittedAt(h[..n], i)
    {
      assert CommittedAt(h, i);
      assert h[..n][..i + 1] == h[..i + 1];
    }
  }

  /** In a committed chain no two entries share a `to_hash`, so nothing in it is a duplicate. */
  lemma {:induction false} DedupedOfCommitted(h: seq<HistoryEntry>)
    requires Committed(h)
    ensures Deduped(h) == h
  {
    if h != [] {
      var n := |h| - 1;
      CommittedPrefix(h, n);
      DedupedOfCommitted(h[..n]);
      if HasToHash(h[..n], h[n].toHash) {
        var e :| e in h[..n] && e.toHash == h[n].toHash;
        var i :| 0 <= i < n && h[..n][i] == e;
        CommitmentIsPrefix(h, h, i, n);
        assert false;
      }
      assert h[..n] + [h[n]] == h;
    }
  }

  /** An entry of `theirs` duplicates one of ours exactly inside the common prefix, and never one of
      `theirs` that was kept. */
  lemma DuplicateIffInPrefix(ours: seq<HistoryEntry>, theirs: seq<HistoryEntry>, j: nat)
    requires Committed(ours) && Committed(theirs) && j < |theirs|
    ensures var k := CommonPrefix(ours, theirs);
            HasToHash(ours + theirs[k..Max(k, j)], theirs[j].toHash) <==> j < k
  {
    hide Committed, CommonPrefix;
    var k := CommonPrefix(ours, theirs);
    var kept := ours + theirs[k..Max(k, j)];
    if j < k {
      assert ours[j] == ours[..k][j] == theirs[..k][j] == theirs[j];
      assert ours[j] in kept;
    } else {
      forall i | 0 <= i < |kept|
        ensures kept[i].toHash != theirs[j].toHash
      {
        if i < |ours| {
          CommitmentIsPrefix(ours, theirs, i, j);
          if i == j {
            CommonPrefixIsLongest(ours, theirs, j + 1);
          }
        } else {
          assert kept[i] == theirs[i - |ours| + k];
          CommitmentIsPrefix(theirs, theirs, i - |ours| + k, j);
        }
      }
    }
  }

  lemma DedupedSnoc(s: seq<HistoryEntry>, e: HistoryEntry)
    ensures Deduped(s + [e]) == if HasToHash(Deduped(s), e.toHash) then Deduped(s) else Deduped(s) + [e]
  {
    assert (s + [e])[..|s|] == s;
  }

  lemma KeptGrows(ours: seq<HistoryEntry>, theirs: seq<HistoryEntry>, k: nat, j: nat)
    requires k <= |theirs| && j < |theirs|
    ensures ours + theirs[..j + 1] == ours + theirs[..j] + [theirs[j]]
    ensures k <= j ==> ours + theirs[k..j + 1] == ours + theirs[k..j] + [theirs[j]]
  {
  }

  lemma {:induction false} DedupedPart(ours: seq<HistoryEntry>, theirs: seq<HistoryEntry>, j: nat)
    requires Committed(ours) && Committed(theirs) && j <= |theirs|
    ensures var k := CommonPrefix(ours, theirs); Deduped(ours + theirs[..j]) == ours + theirs[k..Max(k, j)]
    decreases j
  {
    hide Committed, HasToHash, CommonPrefix, Deduped;
    var k := CommonPrefix(ours, theirs);
    if j == 0 {
      assert ours + theirs[..0] == ours && ours + theirs[k..k] == ours;
      DedupedOfCommitted(ours);
    } else {
      DedupedPart(ours, theirs, j - 1);
      DuplicateIffInPrefix(ours, theirs, j - 1);
      DedupedSnoc(ours + theirs[..j - 1], theirs[j - 1]);
      KeptGrows(ours, theirs, k, j - 1);
    }
  }

  /** The entries a merge drops as duplicates are exactly the longest common prefix, taken once. */
  lemma MergeDropsCommonPrefix(ours: seq<HistoryEntry>, theirs: seq<HistoryEntry>)
    requires Committed(ours) && Committed(theirs)
    ensures Deduped(ours + theirs) == ours + theirs[CommonPrefix(ours, theirs)..]
  {
    DedupedPart(ours, theirs, |theirs|);
    assert theirs[..|theirs|] == theirs;
  }

  lemma ByTimestampIsPreorder()
    ensures TotalPreorder(ByTimestamp)
  {
  }

  lemma OpsSumOfSplice(a: seq<HistoryEntry>, e: HistoryEntry, b: seq<HistoryEntry>)
    ensures OpsSum(a + [e] + b) == OpsSum(a + b) + e.opsCount
  {
    hide OpsSum;
    OpsSumConcat(a + [e], b);
    OpsSumConcat(a, [e]);
    OpsSumConcat(a, b);
    OpsSumOfOne(e);
  }

  lemma {:induction false} OpsSumOfSort(s: seq<HistoryEntry>)
    ensures OpsSum(StableSort(s, ByTimestamp)) == OpsSum(s)
  {
    hide Insert;
    if s != [] {
      var n := |s| - 1;
      OpsSumOfSort(s[..n]);
      var t := StableSort(s[..n], ByTimestamp);
      var k := InsertSplits(t, s[n], ByTimestamp);
      OpsSumOfSplice(t[..k], s[n], t[k..]);
      assert t[..k] + t[k..] == t;
    }
  }

  /** A rearrangement of `s` in the order of its instants, entries of one instant in the order of `s`. */
  ghost predicate IsTimeSortOf(m: seq<HistoryEntry>, s: seq<HistoryEntry>) {
    && multiset(m) == multiset(s)
    && Nondecreasing(Times(m))
    && SameClasses(m, s, ByTimestamp)
  }

  lemma SortIsTimeSort(s: seq<HistoryEntry>)
    ensures IsTimeSortOf(StableSort(s, ByTimestamp), s)
  {
    ByTimestampIsPreorder();
    hide TotalPreorder, StableSort, Class;
    StableSortKeeps(s, ByTimestamp);
    StableSortSorted(s, ByTimestamp);
    forall x
      ensures Class(StableSort(s, ByTimestamp), x, ByTimestamp) == Class(s, x, ByTimestamp)
    {
      StableSortStable(s, x, ByTimestamp);
    }
  }

  /** There is only one such rearrangement. */
  lemma TimeSortUnique(a: seq<HistoryEntry>, b: seq<HistoryEntry>, s: seq<HistoryEntry>)
    requires IsTimeSortOf(a, s) && IsTimeSortOf(b, s)
    ensures a == b
  {
    ByTimestampIsPreorder();
    hide TotalPreorder, Class;
    assert forall i :: 0 <= i < |a| ==> Times(a)[i] == a[i].timestamp;
    assert forall i :: 0 <= i < |b| ==> Times(b)[i] == b[i].timestamp;
    assert SameClasses(a, b, ByTimestamp) by {
      forall x
        ensures Class(a, x, ByTimestamp) == Class(b, x, ByTimestamp)
      {
        assert Class(a, x, ByTimestamp) == Class(s, x, ByTimestamp) == Class(b, x, ByTimestamp);
      }
    }
    StableSortUnique(a, b, ByTimestamp);
  }

  /** The merged history is the time-sorted union: ours and what theirs adds beyond the common prefix,
      each entry once and unchanged. Nothing else qualifies. */
  lemma MergedHistoryIs(ours: seq<HistoryEntry>, theirs: seq<HistoryEntry>, m: seq<HistoryEntry>)
    requires Committed(ours) && Committed(theirs)
    ensures IsTimeSortOf(m, ours + theirs[CommonPrefix(ours, theirs)..]) <==> m == MergedHistory(ours, theirs)
  {
    hide Committed, CommonPrefix, Deduped, StableSort, IsTimeSortOf;
    MergeDropsCommonPrefix(ours, theirs);
    var kept := ours + theirs[CommonPrefix(ours, theirs)..];
    SortIsTimeSort(kept);
    if IsTimeSortOf(m, kept) {
      TimeSortUnique(m, MergedHistory(ours, theirs), kept);
    }
  }

  /** Length and operation count of a merged history: the two sums, the common prefix counted once. */
  lemma MergedHistoryCounts(ours: seq<HistoryEntry>, theirs: seq<HistoryEntry>)
    requires Committed(ours) && Committed(theirs)
    ensures var k, m := CommonPrefix(ours, theirs), MergedHistory(ours, theirs);
            && |m| == |ours| + |theirs| - k
            && OpsSum(m) == OpsSum(ours) + OpsSum(theirs) - OpsSum(ours[..k])
  {
    hide Committed, CommonPrefix, Deduped, StableSort, OpsSum;
    var k := CommonPrefix(ours, theirs);
    MergeDropsCommonPrefix(ours, theirs);
    OpsSumOfSort(ours + theirs[k..]);
    OpsSumConcat(ours, theirs[k..]);
    OpsSumConcat(theirs[..k], theirs[k..]);
    assert theirs == theirs[..k] + theirs[k..];
  }

  ghost predicate NoneLater(p: seq<HistoryEntry>, q: seq<HistoryEntry>) {
    forall i, j :: 0 <= i < |p| && 0 <= j < |q| ==> p[i].timestamp <= q[j].timestamp
  }

  lemma FrontOfSort(p: seq<HistoryEntry>, rest: seq<HistoryEntry>)
    requires Nondecreasing(Times(p)) && NoneLater(p, rest)
    ensures StableSort(p + rest, ByTimestamp) == p + StableSort(rest, ByTimestamp)
  {
    assert forall i :: 0 <= i < |p| ==> Times(p)[i] == p[i].timestamp;
    SortKeepsFront(p, rest, ByTimestamp);
  }

  /** What lies behind the cut of a sequence is rearranged among itself. */
  lemma RestIsRearranged(m: seq<HistoryEntry>, p: seq<HistoryEntry>, rest: seq<HistoryEntry>)
    requires |p| <= |m| && m[..|p|] == p && multiset(m) == multiset(p + rest)
    ensures multiset(m[|p|..]) == multiset(rest)
  {
    assert m == p + m[|p|..];
    assert multiset(m[|p|..]) == multiset(m) - multiset(p);
    assert multiset(rest) == multiset(p + rest) - multiset(p);
  }

  /** Every entry behind the cut of a sequence in time order is no earlier than those before it. */
  lemma CutInOrder(m: seq<HistoryEntry>, p: seq<HistoryEntry>, rest: seq<HistoryEntry>)
    requires Nondecreasing(Times(m)) && |p| <= |m| && m[..|p|] == p && multiset(m) == multiset(p + rest)
    ensures Nondecreasing(Times(p)) && NoneLater(p, rest)
  {
    var k, q := |p|, m[|p|..];
    RestIsRearranged(m, p, rest);
    assert Times(p) == Times(m)[..k];
    forall i, j | 0 <= i < k && 0 <= j < |rest|
      ensures p[i].timestamp <= rest[j].timestamp
    {
      assert rest[j] in multiset(q);
      var l :| 0 <= l < |q| && q[l] == rest[j];
      assert Times(m)[i] <= Times(m)[k + l];
    }
  }

  /** When a sort keeps `p` in front. */
  lemma SortCut(p: seq<HistoryEntry>, rest: seq<HistoryEntry>)
    ensures StableSort(p + rest, ByTimestamp)[..|p|] == p <==> Nondecreasing(Times(p)) && NoneLater(p, rest)
    ensures StableSort(p + rest, ByTimestamp)[..|p|] == p ==>
              StableSort(p + rest, ByTimestamp) == p + StableSort(rest, ByTimestamp)
  {
    SortIsTimeSort(p + rest);
    hide StableSort, NoneLater, Nondecreasing;
    if Nondecreasing(Times(p)) && NoneLater(p, rest) {
      FrontOfSort(p, rest);
    }
    if StableSort(p + rest, ByTimestamp)[..|p|] == p {
      CutInOrder(StableSort(p + rest, ByTimestamp), p, rest);
    }
  }

  /** The common prefix stays in front exactly when its instants are in order and none of them is later
      than an entry that one side added. */
  lemma CommonPrefixStaysInFront(ours: seq<HistoryEntry>, theirs: seq<HistoryEntry>)
    requires Committed(ours) && Committed(theirs)
    ensures var k, m := CommonPrefix(ours, theirs), MergedHistory(ours, theirs);
            |m| >= k && (m[..k] == ours[..k] <==>
              Nondecreasing(Times(ours[..k])) && NoneLater(ours[..k], ours[k..] + theirs[k..]))
    ensures var k, m := CommonPrefix(ours, theirs), MergedHistory(ours, theirs);
            m[..k] == ours[..k] ==> m == ours[..k] + StableSort(ours[k..] + theirs[k..], ByTimestamp)
  {
    hide Committed, CommonPrefix, Deduped, StableSort, NoneLater, Nondecreasing;
    MergeDropsCommonPrefix(ours, theirs);
    var k := CommonPrefix(ours, theirs);
    SortCut(ours[..k], ours[k..] + theirs[k..]);
    assert ours + theirs[k..] == ours[..k] + (ours[k..] + theirs[k..]);
  }
}
