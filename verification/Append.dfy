/** Extending a history chain (crates/ft-history/src/append.rs). */
module Append {
  import opened Wrappers
  import opened Text
  import opened Kind
  import opened Records

  /** What changed and who changed it, before the entry is linked. */
  datatype HistoryDraft = HistoryDraft(
    mergedViaPr: Option<nat>, timestamp: Timestamp, primaryActor: Identity, contributors: seq<Identity>,
    opsSummary: seq<string>, opsCount: U32, kind: HistoryEntryKind, transition: Option<Transition>)

  datatype HistoryError = InvalidDraft

  /** The draft's summary lines with the kind tag in front of the first. */
  function TaggedSummary(kind: HistoryEntryKind, lines: seq<string>): (r: seq<string>) {
    var prefix := kind.AsTag() + ": ";
    if lines == [] then [prefix + "(no summary)"]
    else if StartsWith(lines[0], prefix) then lines
    else [prefix + lines[0]] + lines[1..]
  }

  /** `into_entry_with_hashes`. */
  function DraftEntry(d: HistoryDraft, from: Hash, to: Hash): HistoryEntry {
    HistoryEntry(d.mergedViaPr, d.timestamp, d.primaryActor, d.contributors, TaggedSummary(d.kind, d.opsSummary),
                 d.opsCount, from, to, d.transition)
  }

  /** The kind written in front of the first summary line, if there is one. */
  function EntryKind(e: HistoryEntry): Option<HistoryEntryKind> {
    if e.opsSummary == [] then None
    else
      match SplitOnce(e.opsSummary[0], ':')
      case None => None
      case Some((tag, _)) => FromTag(Trim(tag))
  }

  predicate IsUpdate(e: HistoryEntry) {
    EntryKind(e) == Some(Update)
  }

  /** The kind survives the round trip through the free-form summary, whatever the caller wrote there:
      a line that carries another kind's tag is tagged again, in front. */
  lemma EntryKindReadsBack(d: HistoryDraft, from: Hash, to: Hash)
    ensures EntryKind(DraftEntry(d, from, to)) == Some(d.kind)
    ensures d.opsSummary != [] ==> |DraftEntry(d, from, to).opsSummary| == |d.opsSummary|
    ensures d.opsSummary != [] ==> DraftEntry(d, from, to).opsSummary[1..] == d.opsSummary[1..]
  {
    var tag := d.kind.AsTag();
    var head := DraftEntry(d, from, to).opsSummary[0];
    assert StartsWith(head, tag + ": ") by {
      assert d.opsSummary != [] && !StartsWith(d.opsSummary[0], tag + ": ") ==> head == tag + ": " + d.opsSummary[0];
    }
    var rest := head[|tag| + 1..];
    assert head == tag + [':'] + rest by {
      assert head[..|tag| + 2] == tag + ": ";
      assert head[|tag|] == (tag + ": ")[|tag|] == ':';
      assert head[..|tag|] == (tag + ": ")[..|tag|] == tag;
    }
    TagIsPlain(d.kind);
    SplitOnceOf(tag, ':', rest);
    TagRoundTrip(tag, d.kind);
  }

  /** Every field of the draft is in the entry: the summary lines as they were drafted, the first behind the tag of the
      kind unless it starts with that already, and a note if there are none. */
  predicate Carries(e: HistoryEntry, d: HistoryDraft) {
    var tag := d.kind.AsTag() + ": ";
    && EntryKind(e) == Some(d.kind)
    && e.mergedViaPr == d.mergedViaPr && e.timestamp == d.timestamp && e.primaryActor == d.primaryActor
    && e.contributors == d.contributors && e.opsCount == d.opsCount && e.transition == d.transition
    && if d.opsSummary == [] then e.opsSummary == [tag + "(no summary)"]
       else
         && |e.opsSummary| == |d.opsSummary| && e.opsSummary[1..] == d.opsSummary[1..]
         && (e.opsSummary[0] == d.opsSummary[0] || e.opsSummary[0] == tag + d.opsSummary[0])
         && (e.opsSummary[0] == d.opsSummary[0] <==> StartsWith(d.opsSummary[0], tag))
  }

  /** The stored entry carries the draft, and no other entry does but for its hashes. */
  lemma DraftIsCarried(d: HistoryDraft, from: Hash, to: Hash)
    ensures Carries(DraftEntry(d, from, to), d)
    ensures forall e :: Carries(e, d) ==> e.Bare() == DraftEntry(d, Empty, Empty)
  {
    EntryKindReadsBack(d, from, to);
    hide EntryKind;
    forall e | Carries(e, d)
      ensures e.Bare() == DraftEntry(d, Empty, Empty)
    {
      if d.opsSummary != [] {
        assert e.opsSummary == [e.opsSummary[0]] + e.opsSummary[1..];
        assert d.opsSummary == [d.opsSummary[0]] + d.opsSummary[1..];
      }
    }
  }

  /** A line with one of the nine tags in front is read as of that kind. */
  lemma TaggedLineIsRead(e: HistoryEntry, text: string)
    requires e.opsSummary != []
    ensures e.opsSummary[0] == "create: " + text ==> EntryKind(e) == Some(Create)
    ensures e.opsSummary[0] == "update: " + text ==> EntryKind(e) == Some(Update)
    ensures e.opsSummary[0] == "trust-transition: " + text ==> EntryKind(e) == Some(TrustTransition)
    ensures e.opsSummary[0] == "close: " + text ==> EntryKind(e) == Some(Close)
    ensures e.opsSummary[0] == "reopen: " + text ==> EntryKind(e) == Some(Reopen)
    ensures e.opsSummary[0] == "supersede: " + text ==> EntryKind(e) == Some(Supersede)
    ensures e.opsSummary[0] == "deprecate: " + text ==> EntryKind(e) == Some(Deprecate)
    ensures e.opsSummary[0] == "archive: " + text ==> EntryKind(e) == Some(Archive)
    ensures e.opsSummary[0] == "redact: " + text ==> EntryKind(e) == Some(Redact)
  {
    hide EntryKind, FromTag, Trim;
    TagIsRead(e, "create", Create, text);
    TagIsRead(e, "update", Update, text);
    TagIsRead(e, "trust-transition", TrustTransition, text);
    TagIsRead(e, "close", Close, text);
    TagIsRead(e, "reopen", Reopen, text);
    TagIsRead(e, "supersede", Supersede, text);
    TagIsRead(e, "deprecate", Deprecate, text);
    TagIsRead(e, "archive", Archive, text);
    TagIsRead(e, "redact", Redact, text);
  }

  lemma TagIsRead(e: HistoryEntry, tag: string, k: HistoryEntryKind, text: string)
    requires e.opsSummary != [] && tag == k.AsTag()
    ensures e.opsSummary[0] == tag + ": " + text ==> EntryKind(e) == Some(k)
  {
    if e.opsSummary[0] == tag + ": " + text {
      TagIsPlain(k);
      assert tag + ": " + text == tag + [':'] + (" " + text);
      SplitOnceOf(tag, ':', " " + text);
      TagRoundTrip(tag, k);
    }
  }

  /** `canonical_state_hash_with_open_tail`. */
  function OpenTailHash(r: RecordState): Hash {
    if r.history == [] then StateHash(r) else Digest(r.content, OpenTail(r.history))
  }

  /** The record after a draft is appended: the new entry starts where the chain ended, and its
      `to_hash` commits to the content and to every entry up to itself. */
  function Appended(r: RecordState, d: HistoryDraft): Result<RecordState, HistoryError> {
    if d.opsCount == 0 then Failure(InvalidDraft)
    else
      var from := ChainHead(r.history);
      var open := DraftEntry(d, from, Empty);
      var history := r.history + [open.(toHash := Digest(r.content, r.history + [open]))];
      Success(RecordState(r.content, history, Digest(r.content, history), PrevPointer(from)))
  }

  /** The one writer of the chain: push an open entry, hash the record, close the entry, re-hash. */
  method AppendHistory(record: Record, draft: HistoryDraft) returns (res: Result<(), HistoryError>)
    modifies record
    ensures res.Success? <==> Appended(old(record.State()), draft).Success?
    ensures res.Success? ==> record.State() == Appended(old(record.State()), draft).value
    ensures res.Success? ==>
              |record.history| == |old(record.history)| + 1 && old(record.history) < record.history
              && Carries(record.history[|old(record.history)|], draft) && record.content == old(record.content)
    ensures res.Failure? ==> record.State() == old(record.State()) && draft.opsCount == 0
  {
    if draft.opsCount == 0 {
      return Failure(InvalidDraft);
    }
    var fromHash := if record.history == [] then Empty else record.history[|record.history| - 1].toHash;
    var entry := DraftEntry(draft, fromHash, Empty);
    record.history := record.history + [entry];

    var entryToHash := OpenTailHash(record.Current());
    var tail := |record.history| - 1;
    record.history := record.history[tail := record.history[tail].(toHash := entryToHash)];

    record.prevStateHash := if fromHash == Empty then None else Some(fromHash);
    record.stateHash := Empty;
    var envelopeHash := StateHash(record.Current());
    record.stateHash := envelopeHash;
    assert OpenTail(old(record.history) + [entry]) == old(record.history) + [entry];
    assert record.history == old(record.history) + [entry.(toHash := entryToHash)];
    DraftIsCarried(draft, fromHash, entryToHash);
    hide Carries, TaggedSummary;
    return Success(());
  }
}
