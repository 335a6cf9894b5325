/** Checking a record's chain (crates/ft-history/src/verify.rs). */
module Verify {
  import opened Wrappers
  import opened Records
  import opened Append

  datatype Place = Envelope | HistoryAt(index: nat)

  datatype VerifyError =
    | EmptyHistory
    | MissingGenesis(got: Hash)
    | BrokenLink(atIndex: nat, fromHash: Hash, priorToHash: Hash)
    | EnvelopeChainDesync(envelope: Option<Hash>, tail: Hash)
    | HashMismatch(stored: Hash, computed: Hash, at: Place)

  /** The first position from `i` on whose entry does not start where the one before it ended. */
  function FirstBrokenLink(h: seq<HistoryEntry>, i: nat): (r: Option<nat>)
    requires 1 <= i
    ensures r.None? ==> forall j :: i <= j < |h| ==> h[j].fromHash == h[j - 1].toHash
    ensures r.Some? ==> i <= r.value < |h| && h[r.value].fromHash != h[r.value - 1].toHash
    ensures r.Some? ==> forall j :: i <= j < r.value ==> h[j].fromHash == h[j - 1].toHash
    decreases |h| - i
  {
    if i >= |h| then None
    else if h[i].fromHash != h[i - 1].toHash then Some(i)
    else FirstBrokenLink(h, i + 1)
  }

  /** `verify_chain`: the first violation found, in the order the checks are made. */
  function VerifyChain(r: RecordState): Result<(), VerifyError> {
    if r.history == [] then
      if r.prevStateHash.Some? then Failure(EmptyHistory)
      else if StateHash(r) != r.stateHash then Failure(HashMismatch(r.stateHash, StateHash(r), Envelope))
      else Success(())
    else if r.history[0].fromHash != Empty then Failure(MissingGenesis(r.history[0].fromHash))
    else
      match FirstBrokenLink(r.history, 1)
      case Some(i) => Failure(BrokenLink(i, r.history[i].fromHash, r.history[i - 1].toHash))
      case None =>
        var tail := r.history[|r.history| - 1];
        if r.prevStateHash != PrevPointer(tail.fromHash) then
          Failure(EnvelopeChainDesync(r.prevStateHash, tail.fromHash))
        else if StateHash(r) != r.stateHash then Failure(HashMismatch(r.stateHash, StateHash(r), Envelope))
        else if OpenTailHash(r) != tail.toHash then
          Failure(HashMismatch(tail.toHash, OpenTailHash(r), HistoryAt(|r.history| - 1)))
        else Success(())
  }

  predicate Verifies(r: RecordState) {
    VerifyChain(r).Success?
  }

  /** Every entry starts where the one before it ended, the first one nowhere. */
  ghost predicate Linked(h: seq<HistoryEntry>) {
    forall i :: 0 <= i < |h| ==> h[i].fromHash == ChainHead(h[..i])
  }

  /** The chain's shape, stated without an order of checks. */
  ghost predicate Intact(r: RecordState) {
    && Linked(r.history)
    && r.prevStateHash == (if r.history == [] then None else PrevPointer(r.history[|r.history| - 1].fromHash))
    && r.stateHash == Digest(r.content, r.history)
    && (r.history != [] ==> ChainHead(r.history) == Digest(r.content, OpenTail(r.history)))
  }

  /** The scan over neighbours decides linkage. */
  lemma LinkedByScan(h: seq<HistoryEntry>)
    requires h != []
    ensures Linked(h) <==> h[0].fromHash == Empty && FirstBrokenLink(h, 1).None?
  {
    assert forall i :: 1 <= i < |h| ==> ChainHead(h[..i]) == h[i - 1].toHash;
    assert ChainHead(h[..0]) == Empty;
    if Linked(h) {
      assert h[0].fromHash == ChainHead(h[..0]);
      assert forall i :: 1 <= i < |h| ==> h[i].fromHash == h[i - 1].toHash;
    }
  }

  /** The short-circuiting check accepts exactly the intact records. */
  lemma VerifyAcceptsExactlyIntact(r: RecordState)
    ensures Verifies(r) <==> Intact(r)
  {
    if r.history != [] {
      LinkedByScan(r.history);
    }
  }

  /** A reported broken link is the first one there is: the chain is sound up to it. */
  lemma BrokenLinkIsFirst(r: RecordState, at: nat)
    requires VerifyChain(r).Failure? && VerifyChain(r).error.BrokenLink? && VerifyChain(r).error.atIndex == at
    ensures 1 <= at < |r.history| && Linked(r.history[..at]) && !Linked(r.history[..at + 1])
  {
    var h := r.history;
    forall i | 0 <= i < at
      ensures h[..at][i].fromHash == ChainHead(h[..at][..i])
    {
      assert h[..at][..i] == h[..i];
    }
    assert h[..at + 1][..at] == h[..at];
    assert h[..at + 1][at].fromHash != ChainHead(h[..at + 1][..at]);
  }

  /** The envelope points where the last entry starts. */
  predicate PointsAtTail(r: RecordState) {
    r.prevStateHash == if r.history == [] then None else PrevPointer(r.history[|r.history| - 1].fromHash)
  }

  /** What is reported when every entry starts where the one before it ended. */
  lemma LinkedReports(r: RecordState)
    requires Linked(r.history)
    ensures var h, sealed := r.history, Digest(r.content, r.history);
            VerifyChain(r) ==
            if !PointsAtTail(r) then
              if h == [] then Failure(EmptyHistory)
              else Failure(EnvelopeChainDesync(r.prevStateHash, h[|h| - 1].fromHash))
            else if r.stateHash != sealed then Failure(HashMismatch(r.stateHash, sealed, Envelope))
            else if h != [] && h[|h| - 1].toHash != Digest(r.content, OpenTail(h)) then
              Failure(HashMismatch(h[|h| - 1].toHash, Digest(r.content, OpenTail(h)), HistoryAt(|h| - 1)))
            else Success(())
  {
    if r.history != [] {
      LinkedByScan(r.history);
    }
    hide Linked;
  }

  /** The links are sound up to here and no further. */
  ghost predicate BreaksAt(h: seq<HistoryEntry>, i: nat) {
    1 <= i < |h| && Linked(h[..i]) && h[i].fromHash != h[i - 1].toHash
  }

  /** What is reported otherwise: a first entry that does not start anew, or else the place where the links break. */
  lemma UnlinkedReports(r: RecordState, i: nat)
    requires !Linked(r.history)
    ensures var h := r.history;
            && h != []
            && (h[0].fromHash != Empty ==> VerifyChain(r) == Failure(MissingGenesis(h[0].fromHash)) && !BreaksAt(h, i))
            && (h[0].fromHash == Empty ==>
                  VerifyChain(r).Failure? && VerifyChain(r).error.BrokenLink?
                  && (BreaksAt(h, i) <==> VerifyChain(r).error.atIndex == i)
                  && (BreaksAt(h, i) ==> VerifyChain(r).error == BrokenLink(i, h[i].fromHash, h[i - 1].toHash)))
  {
    LinkedByScan(r.history);
    BreaksIsScan(r.history, i);
    hide Linked, BreaksAt, FirstBrokenLink, PrevPointer, OpenTailHash;
  }

  /** The links break where the scan stops, if the first entry starts anew. */
  lemma BreaksIsScan(h: seq<HistoryEntry>, i: nat)
    requires h != []
    ensures BreaksAt(h, i) <==> h[0].fromHash == Empty && FirstBrokenLink(h, 1) == Some(i)
  {
    if 1 <= i < |h| {
      LinkedUpTo(h, i);
    }
    hide Linked;
  }

  lemma LinkedMeets(h: seq<HistoryEntry>, i: nat)
    requires Linked(h) && i < |h|
    ensures h[i].fromHash == if i == 0 then Empty else h[i - 1].toHash
  {
    assert h[i].fromHash == ChainHead(h[..i]);
  }

  /** The violation is there and those looked for earlier are not, with what was found. */
  ghost predicate FirstViolation(r: RecordState, e: VerifyError) {
    var h, sealed := r.history, Digest(r.content, r.history);
    match e
    case EmptyHistory => h == [] && r.prevStateHash != None
    case MissingGenesis(got) => h != [] && h[0].fromHash == got != Empty
    case BrokenLink(i, from, prior) =>
      1 <= i < |h| && Linked(h[..i]) && h[i].fromHash == from && h[i - 1].toHash == prior != from
    case EnvelopeChainDesync(envelope, tail) =>
      h != [] && Linked(h) && !PointsAtTail(r) && envelope == r.prevStateHash && tail == h[|h| - 1].fromHash
    case HashMismatch(stored, computed, Envelope) =>
      Linked(h) && PointsAtTail(r) && stored == r.stateHash != computed == sealed
    case HashMismatch(stored, computed, HistoryAt(i)) =>
      Linked(h) && PointsAtTail(r) && r.stateHash == sealed && i + 1 == |h|
      && stored == h[i].toHash != computed == Digest(r.content, OpenTail(h))
  }

  /** Each violation is reported exactly when it is the first in the order of the checks. */
  lemma VerifyReports(r: RecordState, e: VerifyError)
    ensures VerifyChain(r) == Failure(e) <==> FirstViolation(r, e)
  {
    hide VerifyChain, FirstViolation, Linked;
    if Linked(r.history) {
      ReportsWhenLinked(r, e);
    } else {
      ReportsWhenUnlinked(r, e);
    }
  }

  lemma ReportsWhenLinked(r: RecordState, e: VerifyError)
    requires Linked(r.history)
    ensures VerifyChain(r) == Failure(e) <==> FirstViolation(r, e)
  {
    var h := r.history;
    LinkedReports(r);
    if h != [] {
      LinkedMeets(h, 0);
    }
    hide VerifyChain, Linked, OpenTail, PrevPointer;
    if e.BrokenLink? && 1 <= e.atIndex < |h| {
      LinkedMeets(h, e.atIndex);
    }
  }

  lemma ReportsWhenUnlinked(r: RecordState, e: VerifyError)
    requires !Linked(r.history)
    ensures VerifyChain(r) == Failure(e) <==> FirstViolation(r, e)
  {
    UnlinkedReports(r, if e.BrokenLink? then e.atIndex else 0);
    hide VerifyChain, Linked, OpenTail, PrevPointer, PointsAtTail;
    assert e.BrokenLink? && FirstViolation(r, e) ==> BreaksAt(r.history, e.atIndex);
  }

  lemma HeadOfPrefix(h: seq<HistoryEntry>, i: nat, j: nat)
    requires j <= i <= |h|
    ensures ChainHead(h[..i][..j]) == if j == 0 then Empty else h[j - 1].toHash
  {
  }

  lemma LinkedPrefix(h: seq<HistoryEntry>, i: nat)
    requires 1 <= i <= |h|
    ensures Linked(h[..i]) <==>
            h[0].fromHash == Empty && forall j :: 1 <= j < i ==> h[j].fromHash == h[j - 1].toHash
  {
    hide ChainHead;
    var g := h[..i];
    if Linked(g) {
      HeadOfPrefix(h, i, 0);
      assert g[0].fromHash == h[0].fromHash;
      forall j | 1 <= j < i
        ensures h[j].fromHash == h[j - 1].toHash
      {
        HeadOfPrefix(h, i, j);
        assert g[j].fromHash == ChainHead(g[..j]);
      }
    }
    if h[0].fromHash == Empty && forall j :: 1 <= j < i ==> h[j].fromHash == h[j - 1].toHash {
      forall j | 0 <= j < i
        ensures g[j].fromHash == ChainHead(g[..j])
      {
        HeadOfPrefix(h, i, j);
      }
    }
  }

  /** Linked up to an entry that is not is where the scan stops. */
  lemma LinkedUpTo(h: seq<HistoryEntry>, i: nat)
    requires 1 <= i < |h|
    ensures Linked(h[..i]) && h[i].fromHash != h[i - 1].toHash <==>
            h[0].fromHash == Empty && FirstBrokenLink(h, 1) == Some(i)
  {
    hide Linked;
    LinkedPrefix(h, i);
  }

  /** Appending repairs the hashes but never the links: the longer record verifies exactly when the
      links it was built on were sound, whatever the content and the hash fields were before. */
  lemma AppendedVerifies(r: RecordState, d: HistoryDraft)
    requires Appended(r, d).Success?
    ensures Verifies(Appended(r, d).value) <==> Linked(r.history)
  {
    var s := Appended(r, d).value;
    var h, t := r.history, s.history;
    VerifyAcceptsExactlyIntact(s);
    assert OpenTail(t) == h + [DraftEntry(d, ChainHead(h), Empty)];
    assert t[..|h|] == h;
    assert forall i :: 0 <= i < |h| ==> t[..i] == h[..i];
    if Linked(h) {
      assert Linked(t);
    }
    if Linked(t) {
      forall i | 0 <= i < |h|
        ensures h[i].fromHash == ChainHead(h[..i])
      {
        assert t[i].fromHash == ChainHead(t[..i]);
      }
    }
  }

  /** A verified record is determined by its `state_hash`, so no field can be edited in place:
      any change to the content, the history or the previous hash is caught. */
  lemma StateHashDeterminesRecord(a: RecordState, b: RecordState)
    requires Verifies(a) && Verifies(b)
    requires a.stateHash == b.stateHash
    ensures a == b
  {
    VerifyAcceptsExactlyIntact(a);
    VerifyAcceptsExactlyIntact(b);
  }

  /** The tail's `to_hash` alone also determines a verified record. */
  lemma TailHashDeterminesRecord(a: RecordState, b: RecordState)
    requires Verifies(a) && Verifies(b) && a.history != [] && b.history != []
    requires ChainHead(a.history) == ChainHead(b.history)
    ensures a == b
  {
    VerifyAcceptsExactlyIntact(a);
    VerifyAcceptsExactlyIntact(b);
    var n := |a.history|;
    assert |OpenTail(a.history)| == |OpenTail(b.history)|;
    forall i | 0 <= i < n
      ensures a.history[i] == b.history[i]
    {
      assert OpenTail(a.history)[i] == OpenTail(b.history)[i];
    }
    assert a.history == b.history;
  }
}
