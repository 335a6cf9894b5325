/** What relinking guarantees (crates/ft-history/src/compact.rs, `relink_chain`). */
module Relink {
  import opened Records
  import opened Verify
  import opened Compact

  /** Entry `i` starts where the entry before it ended and commits to the given content. */
  ghost predicate PinnedAt(content: Content, h: seq<HistoryEntry>, i: nat)
    requires i < |h|
  {
    h[i].fromHash == ChainHead(h[..i]) && h[i].toHash == Digest(content, OpenTail(h[..i + 1]))
  }

  /** A chain in which every entry, not just the last, commits to the given content. */
  ghost predicate HashedFor(content: Content, h: seq<HistoryEntry>) {
    forall i :: 0 <= i < |h| ==> PinnedAt(content, h, i)
  }

  lemma PinnedInPrefix(content: Content, h: seq<HistoryEntry>, n: nat, i: nat)
    requires i < n <= |h|
    ensures PinnedAt(content, h[..n], i) <==> PinnedAt(content, h, i)
  {
    assert h[..n][..i] == h[..i] && h[..n][..i + 1] == h[..i + 1];
  }

  lemma HashedForPrefix(content: Content, h: seq<HistoryEntry>, n: nat)
    requires HashedFor(content, h) && n <= |h|
    ensures HashedFor(content, h[..n])
  {
    hide PinnedAt;
    forall i | 0 <= i < n
      ensures PinnedAt(content, h[..n], i)
    {
      PinnedInPrefix(content, h, n, i);
    }
  }

  lemma HashedForSnoc(content: Content, h: seq<HistoryEntry>, e: HistoryEntry)
    requires HashedFor(content, h) && PinnedAt(content, h + [e], |h|)
    ensures HashedFor(content, h + [e])
  {
    hide PinnedAt;
    var t := h + [e];
    assert t[..|h|] == h;
    forall i | 0 <= i < |h|
      ensures PinnedAt(content, t, i)
    {
      PinnedInPrefix(content, t, |h|, i);
    }
  }

  lemma HashedForLinked(content: Content, h: seq<HistoryEntry>)
    requires HashedFor(content, h)
    ensures Linked(h)
  {
    forall i | 0 <= i < |h|
      ensures h[i].fromHash == ChainHead(h[..i])
    {
      assert PinnedAt(content, h, i);
    }
  }

  /** The last entry of a relinked history. */
  lemma RelinkedLast(content: Content, h: seq<HistoryEntry>)
    requires h != []
    ensures var n, r := |h| - 1, RelinkedHistory(content, h);
            && r == RelinkedHistory(content, h[..n]) + [r[n]] && r[n].Bare() == h[n].Bare()
            && PinnedAt(content, RelinkedHistory(content, h[..n]) + [r[n]], n)
  {
    var n, r := |h| - 1, RelinkedHistory(content, h);
    var before := RelinkedHistory(content, h[..n]);
    assert r == before + [r[n]];
    assert r[..n] == before && r[..n + 1] == r;
    assert OpenTail(r) == before + [r[n].(toHash := Empty)];
  }

  lemma {:induction false} RelinkedShape(content: Content, h: seq<HistoryEntry>)
    ensures HashedFor(content, RelinkedHistory(content, h))
    ensures BareAll(RelinkedHistory(content, h)) == BareAll(h)
  {
    if h != [] {
      hide RelinkedHistory, PinnedAt, HashedFor, BareAll;
      var n := |h| - 1;
      RelinkedShape(content, h[..n]);
      RelinkedLast(content, h);
      var before, last := RelinkedHistory(content, h[..n]), RelinkedHistory(content, h)[n];
      HashedForSnoc(content, before, last);
      assert h == h[..n] + [h[n]];
      BareAllConcat(before, [last]);
      BareAllConcat(h[..n], [h[n]]);
      BareOfOne(last, h[n]);
    }
  }

  lemma BareOfOne(a: HistoryEntry, b: HistoryEntry)
    requires a.Bare() == b.Bare()
    ensures BareAll([a]) == BareAll([b])
  {
    assert BareAll([a])[0] == BareAll([b])[0];
  }

  /** A chain hashed for one content is determined by what its entries say. */
  lemma {:induction false} HashedForUnique(content: Content, a: seq<HistoryEntry>, b: seq<HistoryEntry>)
    requires HashedFor(content, a) && HashedFor(content, b) && BareAll(a) == BareAll(b)
    ensures a == b
  {
    if a != [] {
      var n := |a| - 1;
      HashedForPrefix(content, a, n);
      HashedForPrefix(content, b, n);
      assert BareAll(a[..n]) == BareAll(a)[..n] == BareAll(b)[..n] == BareAll(b[..n]);
      HashedForUnique(content, a[..n], b[..n]);
      assert a == a[..n] + [a[n]] && b == b[..n] + [b[n]];
      SameLastEntry(content, a, b, n);
    }
  }

  lemma SameLastEntry(content: Content, a: seq<HistoryEntry>, b: seq<HistoryEntry>, n: nat)
    requires |a| == |b| == n + 1 && a[..n] == b[..n] && a[n].Bare() == b[n].Bare()
    requires PinnedAt(content, a, n) && PinnedAt(content, b, n)
    ensures a[n] == b[n]
  {
    assert a[..n + 1] == a && b[..n + 1] == b;
    assert OpenTail(a) == a[..n] + [a[n].(toHash := Empty)];
    assert OpenTail(b) == b[..n] + [b[n].(toHash := Empty)];
  }

  /** Relinking is canonical: it yields the one chain hashed for the content that says what the
      input says. So it forgets the old hashes, is idempotent, and moves nothing that was in place. */
  lemma RelinkIsCanonical(content: Content, a: seq<HistoryEntry>, b: seq<HistoryEntry>)
    ensures RelinkedHistory(content, a) == RelinkedHistory(content, b) <==> BareAll(a) == BareAll(b)
    ensures RelinkedHistory(content, a) == b <==> HashedFor(content, b) && BareAll(b) == BareAll(a)
  {
    RelinkedShape(content, a);
    RelinkedShape(content, b);
    if BareAll(a) == BareAll(b) {
      HashedForUnique(content, RelinkedHistory(content, a), RelinkedHistory(content, b));
      if HashedFor(content, b) {
        HashedForUnique(content, RelinkedHistory(content, a), b);
      }
    }
  }

  lemma RelinkIsIdempotent(r: RecordState)
    ensures Relinked(Relinked(r)) == Relinked(r)
  {
    RelinkedShape(r.content, r.history);
    RelinkIsCanonical(r.content, Relinked(r).history, r.history);
  }

  /** A relinked record verifies, whatever state its chain and hash fields were in. */
  lemma RelinkedVerifies(r: RecordState)
    ensures Verifies(Relinked(r))
  {
    hide RelinkedHistory, VerifyChain;
    var s := Relinked(r);
    RelinkedShape(r.content, r.history);
    HashedForLinked(r.content, s.history);
    VerifyAcceptsExactlyIntact(s);
    if s.history != [] {
      var n := |s.history| - 1;
      assert PinnedAt(r.content, s.history, n) && s.history[..n + 1] == s.history;
    }
  }
}
