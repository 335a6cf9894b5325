/** Record storage and the write steps built on it (crates/ft-storage/src/embedded.rs and compact.rs,
    crates/ft-cli/src/context.rs, crates/ft-import/src/promote.rs). */
module Workspace {
  import opened Wrappers
  import opened Text
  import opened Kind
  import opened Records
  import opened Append
  import opened Verify
  import opened Compact
  import opened Relink

  // --- the records a write step produces ------------------------------------------------------------------------

  /** The entry `save_record` writes by itself: the creation of a fresh record, an update otherwise. */
  function SaveDraft(r: RecordState, actor: Identity, command: string): HistoryDraft {
    var kind := if r.history == [] && r.prevStateHash.None? then Create else Update;
    var tag := ToAsciiLower(r.content.kind.Prefix());
    var summary := tag + (if kind == Create then " created via `" else " updated via `") + command + "`";
    HistoryDraft(None, r.content.updatedAt, actor, [], [summary], 1, kind, None)
  }

  /** The re-hash every write starts with. */
  function Rehashed(r: RecordState): RecordState {
    r.(stateHash := StateHash(r))
  }

  const QUARANTINE_LABEL_KEY := "quarantine"
  const QUARANTINE_LABEL_VALUE := "true"
  const IMPORT_SOURCE_LABEL_KEY := "import:source"

  predicate IsQuarantined(c: Content) {
    Label(QUARANTINE_LABEL_KEY, QUARANTINE_LABEL_VALUE) in c.labels
  }

  function WithoutKey(labels: seq<Label>, key: string): seq<Label> {
    if labels == [] then []
    else
      var n := |labels| - 1;
      if labels[n].key == key then WithoutKey(labels[..n], key) else WithoutKey(labels[..n], key) + [labels[n]]
  }

  /** The value of the first label with the key. */
  function LabelValue(labels: seq<Label>, key: string, default: string): string {
    if labels == [] then default
    else if labels[0].key == key then labels[0].value
    else LabelValue(labels[1..], key, default)
  }

  function PromotedContent(c: Content): Content {
    c.(labels := WithoutKey(c.labels, QUARANTINE_LABEL_KEY))
  }

  function PromotionDraft(c: Content, now: Timestamp): HistoryDraft {
    HistoryDraft(None, now, c.owner.UnwrapOr(c.createdBy), [],
                 ["promote-import: " + LabelValue(c.labels, IMPORT_SOURCE_LABEL_KEY, "unknown")], 1, Update, None)
  }

  /** A promoted record: out of quarantine, with one more entry. */
  function Promoted(r: RecordState, now: Timestamp): RecordState {
    Appended(r.(content := PromotedContent(r.content)), PromotionDraft(r.content, now)).value
  }

  /** The word for a kind in a summary line. */
  function KindWord(k: RecordKind): string {
    match k
    case Epic => "epic"
    case Task => "task"
    case Subtask => "sub"
    case Bug => "bug"
    case Incident => "inc"
    case Finding => "find"
    case Runbook => "run"
    case Decision => "dec"
    case Gotcha => "gotcha"
    case Memory => "mem"
    case Doc => "doc"
    case RepoProfile => "profile"
  }

  lemma KindWordIsPrefix(k: RecordKind)
    ensures ToAsciiLower(k.Prefix()) == KindWord(k)
    ensures KindWord(k) != [] && KindWord(k)[0] != 'c' && KindWord(k)[0] != 'u'
  {
  }

  /** A line that does not begin like the tag is stored behind it. */
  lemma TagIsPutInFront(k: HistoryEntryKind, line: string)
    requires line != [] && line[0] != k.AsTag()[0]
    ensures TaggedSummary(k, [line]) == [k.AsTag() + ": " + line]
  {
    assert (k.AsTag() + ": ")[0] == k.AsTag()[0];
  }

  /** What a save appends: one line naming kind and command, by the actor, at the record's own update time. */
  lemma SavedEntry(r: RecordState, actor: Identity, command: string)
    ensures Appended(r, SaveDraft(r, actor, command)).Success?
    ensures var h, n := Appended(r, SaveDraft(r, actor, command)).value.history, |r.history|;
            var word := KindWord(r.content.kind);
            && |h| == n + 1 && h[..n] == r.history
            && h[n].opsSummary ==
               (if r.history == [] && r.prevStateHash == None
                then ["create: " + (word + " created via `" + command + "`")]
                else ["update: " + (word + " updated via `" + command + "`")])
            && h[n].primaryActor == actor && h[n].timestamp == r.content.updatedAt && h[n].opsCount == 1
            && h[n].contributors == [] && h[n].mergedViaPr == None && h[n].transition == None
  {
    KindWordIsPrefix(r.content.kind);
    var d, word := SaveDraft(r, actor, command), KindWord(r.content.kind);
    assert d.opsSummary[0][0] == word[0];
    hide KindWord, ToAsciiLower;
    TagIsPutInFront(d.kind, d.opsSummary[0]);
    assert d.opsSummary == [d.opsSummary[0]];
    assert "create" + ": " == "create: " && "update" + ": " == "update: ";
    hide TaggedSummary;
  }

  lemma {:induction false} LabelValueIs(labels: seq<Label>, key: string, default: string) returns (at: nat)
    ensures at <= |labels| && forall j :: 0 <= j < at ==> labels[j].key != key
    ensures at < |labels| ==> labels[at] == Label(key, LabelValue(labels, key, default))
    ensures at == |labels| ==> LabelValue(labels, key, default) == default
  {
    at := 0;
    if labels != [] && labels[0].key != key {
      var k := LabelValueIs(labels[1..], key, default);
      at := k + 1;
    }
  }

  /** What a promotion appends, naming the source the first label of one key has, and what it changes besides: the
      labels of another key are gone. */
  lemma PromotedEntry(r: RecordState, now: Timestamp) returns (source: string, at: nat)
    ensures var labels := r.content.labels;
            && at <= |labels| && (forall j :: 0 <= j < at ==> labels[j].key != "import:source")
            && if at < |labels| then labels[at] == Label("import:source", source) else source == "unknown"
    ensures var p, n := Promoted(r, now), |r.history|;
            && |p.history| == n + 1 && p.history[..n] == r.history
            && p.history[n].opsSummary == ["update: promote-import: " + source]
            && p.history[n].primaryActor == (match r.content.owner case Some(o) => o case None => r.content.createdBy)
            && p.history[n].timestamp == now && p.history[n].opsCount == 1
            && p.history[n].contributors == [] && p.history[n].mergedViaPr == None && p.history[n].transition == None
            && p.content == r.content.(labels := p.content.labels)
            && forall l :: multiset(p.content.labels)[l] ==
                           if l.key == "quarantine" then 0 else multiset(r.content.labels)[l]
  {
    source := LabelValue(r.content.labels, IMPORT_SOURCE_LABEL_KEY, "unknown");
    at := LabelValueIs(r.content.labels, IMPORT_SOURCE_LABEL_KEY, "unknown");
    var line := "promote-import: " + source;
    TagIsPutInFront(Update, line);
    assert "update" + ": " + line == "update: promote-import: " + source;
    hide LabelValue, TaggedSummary, WithoutKey;
    forall l
      ensures multiset(WithoutKey(r.content.labels, QUARANTINE_LABEL_KEY))[l] ==
              if l.key == "quarantine" then 0 else multiset(r.content.labels)[l]
    {
      WithoutKeyIs(r.content.labels, QUARANTINE_LABEL_KEY, l);
    }
  }

  /** Promotion removes the labels with the key, every copy of them, and no other label. */
  lemma {:induction false} WithoutKeyIs(labels: seq<Label>, key: string, l: Label)
    ensures multiset(WithoutKey(labels, key))[l] == if l.key == key then 0 else multiset(labels)[l]
    ensures multiset(labels)[l] == 0 <==> l !in labels
  {
    if labels != [] {
      var n := |labels| - 1;
      WithoutKeyIs(labels[..n], key, l);
      assert labels == labels[..n] + [labels[n]];
    }
  }

  /** What stays, stays in order. */
  lemma {:induction false} WithoutKeyConcat(a: seq<Label>, b: seq<Label>, key: string)
    ensures WithoutKey(a + b, key) == WithoutKey(a, key) + WithoutKey(b, key)
  {
    if b == [] {
      assert a + b == a;
    } else {
      assert (a + b)[..|a + b| - 1] == a + b[..|b| - 1];
      WithoutKeyConcat(a, b[..|b| - 1], key);
    }
  }

  // --- storage ----------------------------------------------------------------------------------------------------

  datatype StorageError = NotFound(id: string) | StaleHash(id: string)

  datatype WorkError = History(h: HistoryError) | Stored(s: StorageError) | NotQuarantined(id: string)

  /** The records on disk, by id. Both reading and writing refuse a record whose `state_hash` is stale. */
  class Storage {
    var records: map<string, RecordState>

    ghost predicate AllVerify()
      reads this
    {
      forall id :: id in records ==> Verifies(records[id])
    }

    method Read(id: string) returns (res: Result<RecordState, StorageError>)
      ensures res.Success? <==> id in records && records[id].stateHash == StateHash(records[id])
      ensures res.Success? ==> res.value == records[id]
      ensures res.Failure? ==> res.error == if id in records then StaleHash(id) else NotFound(id)
    {
      if id !in records {
        return Failure(NotFound(id));
      }
      var r := records[id];
      if StateHash(r) != r.stateHash {
        return Failure(StaleHash(id));
      }
      return Success(r);
    }

    method Write(r: RecordState) returns (res: Result<(), StorageError>)
      modifies this
      ensures res.Success? <==> r.stateHash == StateHash(r)
      ensures records == if res.Success? then old(records)[r.content.id := r] else old(records)
    {
      if StateHash(r) != r.stateHash {
        return Failure(StaleHash(r.content.id));
      }
      records := records[r.content.id := r];
      return Success(());
    }
  }

  // --- write steps ------------------------------------------------------------------------------------------------

  /** `persist_record`: re-hash, then write. The write is never refused. */
  method PersistRecord(storage: Storage, record: Record)
    modifies storage, record
    ensures record.State() == Rehashed(old(record.State()))
    ensures storage.records == old(storage.records)[record.content.id := record.State()]
  {
    record.stateHash := Empty;
    var newHash := StateHash(record.Current());
    record.stateHash := newHash;
    var res := storage.Write(record.Current());
    assert res.Success?;
  }

  /** What is stored after an append verifies if the links it was built on were sound. */
  method SaveRecordWithHistory(storage: Storage, record: Record, draft: HistoryDraft)
    returns (res: Result<(), WorkError>)
    modifies storage, record
    ensures res.Success? <==> draft.opsCount != 0
    ensures res.Success? ==> record.State() == Appended(old(record.State()), draft).value
    ensures res.Success? ==> storage.records == old(storage.records)[record.content.id := record.State()]
    ensures res.Failure? ==> storage.records == old(storage.records) && record.State() == old(record.State())
    ensures old(storage.AllVerify()) && old(Linked(record.history)) ==> storage.AllVerify()
  {
    ghost var before := record.State();
    var appended := AppendHistory(record, draft);
    if appended.Failure? {
      return Failure(History(appended.error));
    }
    AppendedVerifies(before, draft);
    hide Verifies, Linked, TaggedSummary;
    assert record.State().stateHash == StateHash(record.State());
    PersistRecord(storage, record);
    return Success(());
  }

  method SaveRecord(storage: Storage, record: Record, actor: Identity, command: string)
    modifies storage, record
    ensures record.State() == Appended(old(record.State()), SaveDraft(old(record.State()), actor, command)).value
    ensures storage.records == old(storage.records)[record.content.id := record.State()]
    ensures old(storage.AllVerify()) && old(Linked(record.history)) ==> storage.AllVerify()
  {
    var draft := SaveDraft(record.Current(), actor, command);
    var res := SaveRecordWithHistory(storage, record, draft);
  }

  method PromoteRecord(storage: Storage, id: string, now: Timestamp) returns (res: Result<(), WorkError>)
    modifies storage
    ensures res.Success? ==>
              && id in old(storage.records) && IsQuarantined(old(storage.records)[id].content)
              && storage.records ==
                 old(storage.records)[old(storage.records)[id].content.id := Promoted(old(storage.records)[id], now)]
    ensures res.Failure? ==> storage.records == old(storage.records)
    ensures old(storage.AllVerify()) ==>
              (res.Success? <==>
                 id in old(storage.records) && Label("quarantine", "true") in old(storage.records)[id].content.labels)
    ensures old(storage.AllVerify()) ==> storage.AllVerify()
  {
    var found := storage.Read(id);
    if old(storage.AllVerify()) && id in storage.records {
      VerifyAcceptsExactlyIntact(storage.records[id]);
    }
    if found.Failure? {
      return Failure(Stored(found.error));
    }
    var record := new Record(found.value);
    ghost var s := found.value;
    if !IsQuarantined(record.content) {
      return Failure(NotQuarantined(id));
    }
    var draft := PromotionDraft(record.content, now);
    var labels: seq<Label> := [];
    var i := 0;
    while i < |record.content.labels|
      invariant 0 <= i <= |record.content.labels|
      invariant labels == WithoutKey(record.content.labels[..i], QUARANTINE_LABEL_KEY)
    {
      assert record.content.labels[..i + 1][..i] == record.content.labels[..i];
      if record.content.labels[i].key != QUARANTINE_LABEL_KEY {
        labels := labels + [record.content.labels[i]];
      }
      i := i + 1;
    }
    assert record.content.labels[..i] == record.content.labels;
    record.content := record.content.(labels := labels);
    AppendedVerifies(s.(content := PromotedContent(s.content)), draft);
    hide TaggedSummary, LabelValue, WithoutKey, Linked, VerifyChain;
    var appended := AppendHistory(record, draft);
    var written := storage.Write(record.Current());
    return Success(());
  }

  /** `compact_record`: read, compact, write back. */
  method CompactRecord(storage: Storage, id: string, policy: CompactPolicy)
    returns (res: Result<CompactReport, StorageError>)
    modifies storage
    ensures res.Success? ==>
              && id in old(storage.records) && res.value == ReportOf(old(storage.records)[id], policy)
              && storage.records ==
                 old(storage.records)[
                   old(storage.records)[id].content.id := Compacted(old(storage.records)[id], policy)]
    ensures res.Failure? ==> storage.records == old(storage.records)
    ensures old(storage.AllVerify()) ==> (res.Success? <==> id in old(storage.records)) && storage.AllVerify()
  {
    if old(storage.AllVerify()) && id in storage.records {
      VerifyAcceptsExactlyIntact(storage.records[id]);
    }
    var found := storage.Read(id);
    if found.Failure? {
      return Failure(found.error);
    }
    var record := new Record(found.value);
    var report := CompactHistory(record, policy);
    RelinkedVerifies(found.value.(history := Shortened(found.value.history, policy)));
    hide Shortened, RelinkedHistory, VerifyChain, ReportOf;
    var written := storage.Write(record.Current());
    return Success(report);
  }
}
