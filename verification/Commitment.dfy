/** What an entry's `to_hash` commits to (crates/ft-history/src/append.rs, compact.rs). */
module Commitment {
  import opened Records
  import opened Append
  import opened Relink

  /** Entry `i` commits to some content and to the entries up to itself. */
  ghost predicate CommittedAt(h: seq<HistoryEntry>, i: nat)
    requires i < |h|
  {
    h[i].toHash.Digest? && h[i].toHash.history == OpenTail(h[..i + 1])
  }

  ghost predicate Committed(h: seq<HistoryEntry>) {
    forall i :: 0 <= i < |h| ==> CommittedAt(h, i)
  }

  lemma OpenTailAt(h: seq<HistoryEntry>, i: nat)
    requires i < |h|
    ensures OpenTail(h[..i + 1]) == h[..i] + [h[i].(toHash := Empty)]
  {
    assert h[..i + 1][..i] == h[..i];
  }

  /** Two entries of committed chains share their `to_hash` only as the same position of one common
      prefix. */
  lemma CommitmentIsPrefix(a: seq<HistoryEntry>, b: seq<HistoryEntry>, i: nat, j: nat)
    requires Committed(a) && Committed(b) && i < |a| && j < |b|
    ensures a[i].toHash == b[j].toHash ==> i == j && a[..i + 1] == b[..j + 1]
  {
    assert CommittedAt(a, i) && CommittedAt(b, j);
    if a[i].toHash == b[j].toHash {
      OpenTailAt(a, i);
      OpenTailAt(b, j);
      var p, q := a[..i] + [a[i].(toHash := Empty)], b[..j] + [b[j].(toHash := Empty)];
      assert p == q;
      assert |p| == i + 1 && |q| == j + 1;
      assert p[..i] == a[..i] && q[..j] == b[..j] && p[i] == q[j];
      assert a[i].(toHash := Empty).(toHash := a[i].toHash) == a[i];
      assert b[j].(toHash := Empty).(toHash := b[j].toHash) == b[j];
      assert a[..i + 1] == a[..i] + [a[i]] && b[..j + 1] == b[..j] + [b[j]];
    }
  }

  lemma CommittedSnoc(h: seq<HistoryEntry>, e: HistoryEntry)
    requires Committed(h) && e.toHash.Digest? && e.toHash.history == h + [e.(toHash := Empty)]
    ensures Committed(h + [e])
  {
    var t := h + [e];
    forall i | 0 <= i < |t|
      ensures CommittedAt(t, i)
    {
      OpenTailAt(t, i);
      if i < |h| {
        assert CommittedAt(h, i);
        assert t[..i + 1] == h[..i + 1];
      } else {
        assert t[..i] == h;
      }
    }
  }

  lemma AppendedCommits(r: RecordState, d: HistoryDraft)
    requires Committed(r.history) && Appended(r, d).Success?
    ensures Committed(Appended(r, d).value.history)
  {
    hide TaggedSummary;
    var h := Appended(r, d).value.history;
    var e := h[|h| - 1];
    assert h == r.history + [e];
    CommittedSnoc(r.history, e);
  }

  lemma HashedForCommits(content: Content, h: seq<HistoryEntry>)
    requires HashedFor(content, h)
    ensures Committed(h)
  {
    forall i | 0 <= i < |h|
      ensures CommittedAt(h, i)
    {
      assert PinnedAt(content, h, i);
    }
  }
}
