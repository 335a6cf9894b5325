/** Three-way merge of records (crates/ft-pr/src/merge.rs). */
module Merge {
  import opened Wrappers
  import opened Records
  import opened Compact
  import opened Sorting

  // --- scalars ------------------------------------------------------------------------------------------------

  /** A field value as it is shown in a conflict. */
  datatype FieldValue =
    | Null
    | TextValue(text: string)
    | StatusValue(status: Status)
    | PriorityValue(priority: Priority)
    | OptionalText(optText: Option<string>)
    | OptionalTime(optTime: Option<Timestamp>)

  datatype Conflict = Conflict(field: string, base: FieldValue, ours: FieldValue, theirs: FieldValue)

  /** A side that left the base alone yields to the other side; ours stands otherwise. */
  function MergedScalar<T(==)>(base: Option<T>, ours: T, theirs: T): T {
    if base == Some(ours) then theirs else ours
  }

  /** Both sides moved away from the base, to different values. */
  predicate Diverged<T(==)>(base: Option<T>, ours: T, theirs: T) {
    ours != theirs && base != Some(ours) && base != Some(theirs)
  }

  function ScalarConflict<T(==)>(field: string, base: Option<T>, ours: T, theirs: T, show: T -> FieldValue)
    : seq<Conflict>
  {
    if Diverged(base, ours, theirs) then
      [Conflict(field, if base.Some? then show(base.value) else Null, show(ours), show(theirs))]
    else []
  }

  method MergeScalar<T(==)>(field: string, base: Option<T>, ours: T, theirs: T, show: T -> FieldValue,
                            conflicts0: seq<Conflict>) returns (out: T, conflicts: seq<Conflict>)
    ensures out == MergedScalar(base, ours, theirs)
    ensures conflicts == conflicts0 + ScalarConflict(field, base, ours, theirs, show)
  {
    conflicts := conflicts0;
    if ours == theirs {
      out := ours;
      return;
    }
    match base {
      case Some(b) =>
        if b == ours {
          out := theirs;
        } else if b == theirs {
          out := ours;
        } else {
          conflicts := conflicts + [Conflict(field, show(b), show(ours), show(theirs))];
          out := ours;
        }
      case None =>
        conflicts := conflicts + [Conflict(field, Null, show(ours), show(theirs))];
        out := ours;
    }
  }

  // --- history --------------------------------------------------------------------------------------------------

  predicate HasToHash(h: seq<HistoryEntry>, hash: Hash) {
    exists e :: e in h && e.toHash == hash
  }

  /** The entries of `h` whose `to_hash` no earlier kept entry has. */
  function Deduped(h: seq<HistoryEntry>): seq<HistoryEntry> {
    if h == [] then []
    else
      var before := Deduped(h[..|h| - 1]);
      if HasToHash(before, h[|h| - 1].toHash) then before else before + [h[|h| - 1]]
  }

  predicate ByTimestamp(a: HistoryEntry, b: HistoryEntry) {
    a.timestamp <= b.timestamp
  }

  function MergedHistory(ours: seq<HistoryEntry>, theirs: seq<HistoryEntry>): seq<HistoryEntry> {
    StableSort(Deduped(ours + theirs), ByTimestamp)
  }

  method MergeHistory(ours: seq<HistoryEntry>, theirs: seq<HistoryEntry>) returns (out: seq<HistoryEntry>)
    ensures out == MergedHistory(ours, theirs)
  {
    var all := ours + theirs;
    out := [];
    var i := 0;
    while i < |all|
      invariant 0 <= i <= |all|
      invariant out == Deduped(all[..i])
    {
      assert all[..i + 1][..i] == all[..i];
      if !HasToHash(out, all[i].toHash) {
        out := out + [all[i]];
      }
      i := i + 1;
    }
    assert all[..i] == all;
    out := StableSort(out, ByTimestamp);
  }

  // --- acceptance criteria ----------------------------------------------------------------------------------------

  /** `find`: the first criterion with the given text. */
  function FindText(acs: seq<AcceptanceCriterion>, text: string): (r: Option<nat>)
    ensures r.Some? ==> r.value < |acs| && acs[r.value].text == text
    ensures forall i :: 0 <= i < (if r.Some? then r.value else |acs|) ==> acs[i].text != text
  {
    if acs == [] then None
    else
      match FindText(acs[..|acs| - 1], text)
      case Some(i) => Some(i)
      case None => if acs[|acs| - 1].text == text then Some(|acs| - 1) else None
  }

  /** Checked wins over unchecked and brings its evidence; the later update time stands. */
  function Reconciled(existing: AcceptanceCriterion, ac: AcceptanceCriterion): AcceptanceCriterion {
    var won :=
      if existing.status.Unchecked? && ac.status.Checked? then
        existing.(status := Checked, evidenceUrl := ac.evidenceUrl, checkedBy := ac.checkedBy,
                  checkedAt := ac.checkedAt)
      else existing;
    won.(updatedAt := Max(existing.updatedAt, ac.updatedAt))
  }

  function WithCriterion(out: seq<AcceptanceCriterion>, ac: AcceptanceCriterion): seq<AcceptanceCriterion> {
    match FindText(out, ac.text)
    case Some(i) => out[i := Reconciled(out[i], ac)]
    case None => out + [ac]
  }

  function MergedCriteria(ours: seq<AcceptanceCriterion>, theirs: seq<AcceptanceCriterion>): seq<AcceptanceCriterion>
    decreases |theirs|
  {
    if theirs == [] then ours
    else WithCriterion(MergedCriteria(ours, theirs[..|theirs| - 1]), theirs[|theirs| - 1])
  }

  method MergeCriteria(ours: seq<AcceptanceCriterion>, theirs: seq<AcceptanceCriterion>)
    returns (out: seq<AcceptanceCriterion>)
    ensures out == MergedCriteria(ours, theirs)
  {
    out := [];
    var i := 0;
    while i < |ours|
      invariant 0 <= i <= |ours| && out == ours[..i]
    {
      out := out + [ours[i]];
      i := i + 1;
    }
    i := 0;
    while i < |theirs|
      invariant 0 <= i <= |theirs|
      invariant out == MergedCriteria(ours, theirs[..i])
    {
      assert theirs[..i + 1][..i] == theirs[..i];
      var ac := theirs[i];
      var found := FindText(out, ac.text);
      match found {
        case Some(j) =>
          var existing := out[j];
          if existing.status.Unchecked? && ac.status.Checked? {
            existing := existing.(status := Checked);
            existing := existing.(evidenceUrl := ac.evidenceUrl);
            existing := existing.(checkedBy := ac.checkedBy);
            existing := existing.(checkedAt := ac.checkedAt);
          }
          existing := existing.(updatedAt := Max(existing.updatedAt, ac.updatedAt));
          out := out[j := existing];
        case None =>
          out := out + [ac];
      }
      i := i + 1;
    }
    assert theirs[..i] == theirs;
  }

  /** The criteria of two bodies of one work kind; every other pair keeps ours. */
  function MergedBody(ours: Body, theirs: Body): Body {
    match (ours, theirs)
    case (TaskBody(d, p, o, e, c), TaskBody(_, _, t, _, _)) => TaskBody(d, p, MergedCriteria(o, t), e, c)
    case (SubtaskBody(d, p, o, e, c), SubtaskBody(_, _, t, _, _)) => SubtaskBody(d, p, MergedCriteria(o, t), e, c)
    case (BugBody(d, v, w, o, e, c), BugBody(_, _, _, t, _, _)) => BugBody(d, v, w, MergedCriteria(o, t), e, c)
    case _ => ours
  }

  method MergeBody(ours: Body, theirs: Body) returns (out: Body)
    ensures out == MergedBody(ours, theirs)
  {
    out := ours;
    match (ours, theirs) {
      case (TaskBody(d, p, o, e, c), TaskBody(_, _, t, _, _)) =>
        var criteria := MergeCriteria(o, t);
        out := TaskBody(d, p, criteria, e, c);
      case (SubtaskBody(d, p, o, e, c), SubtaskBody(_, _, t, _, _)) =>
        var criteria := MergeCriteria(o, t);
        out := SubtaskBody(d, p, criteria, e, c);
      case (BugBody(d, v, w, o, e, c), BugBody(_, _, _, t, _, _)) =>
        var criteria := MergeCriteria(o, t);
        out := BugBody(d, v, w, criteria, e, c);
      case _ =>
    }
  }

  // --- records -----------------------------------------------------------------------------------------------------

  datatype MergeError = IdMismatch | KindMismatch

  datatype MergeResult = MergeResult(merged: RecordState, conflicts: seq<Conflict>)

  /** One field of the base, if there is a base. */
  function BaseField<T>(base: Option<RecordState>, field: Content -> T): Option<T> {
    match base
    case None => None
    case Some(b) => Some(field(b.content))
  }

  function TitleOf(c: Content): string { c.title }
  function StatusOf(c: Content): Status { c.status }
  function PriorityOf(c: Content): Priority { c.priority }
  function OwnerOf(c: Content): Option<string> { c.owner }
  function ClosedAtOf(c: Content): Option<Timestamp> { c.closedAt }
  function ScopeOf(c: Content): Option<string> { c.owningScope }

  function ShowText(s: string): FieldValue { TextValue(s) }
  function ShowStatus(s: Status): FieldValue { StatusValue(s) }
  function ShowPriority(p: Priority): FieldValue { PriorityValue(p) }
  function ShowOptText(s: Option<string>): FieldValue { OptionalText(s) }
  function ShowOptTime(t: Option<Timestamp>): FieldValue { OptionalTime(t) }

  /** One of the six fields merged against the base. */
  function MergedField<T(==)>(base: Option<RecordState>, ours: Content, theirs: Content, field: Content -> T): T {
    MergedScalar(BaseField(base, field), field(ours), field(theirs))
  }

  function FieldConflict<T(==)>(name: string, base: Option<RecordState>, ours: Content, theirs: Content,
                                field: Content -> T, show: T -> FieldValue): seq<Conflict> {
    ScalarConflict(name, BaseField(base, field), field(ours), field(theirs), show)
  }

  function MergedContent(base: Option<RecordState>, ours: Content, theirs: Content): Content {
    ours.(title := MergedField(base, ours, theirs, TitleOf),
          status := MergedField(base, ours, theirs, StatusOf),
          priority := MergedField(base, ours, theirs, PriorityOf),
          owner := MergedField(base, ours, theirs, OwnerOf),
          closedAt := MergedField(base, ours, theirs, ClosedAtOf),
          owningScope := MergedField(base, ours, theirs, ScopeOf),
          updatedAt := Max(ours.updatedAt, theirs.updatedAt),
          body := MergedBody(ours.body, theirs.body))
  }

  function Conflicts(base: Option<RecordState>, ours: Content, theirs: Content): seq<Conflict> {
    FieldConflict("envelope.title", base, ours, theirs, TitleOf, ShowText)
    + FieldConflict("envelope.status", base, ours, theirs, StatusOf, ShowStatus)
    + FieldConflict("envelope.priority", base, ours, theirs, PriorityOf, ShowPriority)
    + FieldConflict("envelope.owner", base, ours, theirs, OwnerOf, ShowOptText)
    + FieldConflict("envelope.closed_at", base, ours, theirs, ClosedAtOf, ShowOptTime)
    + FieldConflict("envelope.owning_scope", base, ours, theirs, ScopeOf, ShowOptText)
  }

  /** A merged history is re-stitched; a merged record without history is only re-hashed. */
  function MergedRecord(base: Option<RecordState>, ours: RecordState, theirs: RecordState): RecordState {
    var content := MergedContent(base, ours.content, theirs.content);
    var history := MergedHistory(ours.history, theirs.history);
    if history == [] then RecordState(content, [], Digest(content, []), ours.prevStateHash)
    else Relinked(RecordState(content, history, ours.stateHash, ours.prevStateHash))
  }

  function Merged(base: Option<RecordState>, ours: RecordState, theirs: RecordState): Result<MergeResult, MergeError> {
    if ours.content.id != theirs.content.id then Failure(IdMismatch)
    else if ours.content.kind != theirs.content.kind then Failure(KindMismatch)
    else Success(MergeResult(MergedRecord(base, ours, theirs), Conflicts(base, ours.content, theirs.content)))
  }

  /** The six scalars, in the order their conflicts are listed. */
  method MergeScalars(base: Option<RecordState>, o: Content, t: Content) returns (c: Content, conflicts: seq<Conflict>)
    ensures c.(updatedAt := Max(o.updatedAt, t.updatedAt), body := MergedBody(o.body, t.body))
         == MergedContent(base, o, t)
    ensures conflicts == Conflicts(base, o, t)
  {
    hide MergedScalar, ScalarConflict, MergedBody;
    var title, status, priority, owner, closedAt, owningScope;
    conflicts := [];
    title, conflicts := MergeScalar("envelope.title", BaseField(base, TitleOf), o.title, t.title, ShowText, conflicts);
    status, conflicts := MergeScalar("envelope.status", BaseField(base, StatusOf), o.status, t.status,
                                     ShowStatus, conflicts);
    priority, conflicts := MergeScalar("envelope.priority", BaseField(base, PriorityOf), o.priority, t.priority,
                                       ShowPriority, conflicts);
    owner, conflicts := MergeScalar("envelope.owner", BaseField(base, OwnerOf), o.owner, t.owner,
                                    ShowOptText, conflicts);
    closedAt, conflicts := MergeScalar("envelope.closed_at", BaseField(base, ClosedAtOf), o.closedAt, t.closedAt,
                                       ShowOptTime, conflicts);
    owningScope, conflicts := MergeScalar("envelope.owning_scope", BaseField(base, ScopeOf),
                                          o.owningScope, t.owningScope,
                                          ShowOptText, conflicts);
    c := o.(title := title, status := status, priority := priority, owner := owner, closedAt := closedAt,
            owningScope := owningScope);
  }

  method MergeRecords(base: Option<RecordState>, ours: RecordState, theirs: RecordState)
    returns (res: Result<MergeResult, MergeError>)
    ensures res == Merged(base, ours, theirs)
  {
    if ours.content.id != theirs.content.id {
      return Failure(IdMismatch);
    }
    if ours.content.kind != theirs.content.kind {
      return Failure(KindMismatch);
    }
    hide MergedHistory, MergedContent, Conflicts, RelinkedHistory, MergedBody;
    var merged := new Record(ours);
    var content, conflicts := MergeScalars(base, ours.content, theirs.content);
    merged.content := content.(updatedAt := Max(ours.content.updatedAt, theirs.content.updatedAt));
    merged.history := MergeHistory(ours.history, theirs.history);
    var body := MergeBody(ours.content.body, theirs.content.body);
    merged.content := merged.content.(body := body);
    if merged.history == [] {
      merged.stateHash := Empty;
      merged.stateHash := StateHash(merged.Current());
    } else {
      RelinkChain(merged);
    }
    return Success(MergeResult(merged.Current(), conflicts));
  }
}
