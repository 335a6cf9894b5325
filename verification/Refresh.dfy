/** What a rebuild leaves in the tables, and when a refresh leaves the same (crates/ft-index/src/index.rs). */
module Refresh {
  import opened Wrappers
  import opened Records
  import opened Index

  // --- what the tables should hold ---------------------------------------------------------------------------------

  /** The value of the last row with the key. */
  function LastRow(rows: ChildRows, k: ChildKey): Option<ChildRow> {
    if rows == [] then None
    else if rows[|rows| - 1].0 == k then Some(rows[|rows| - 1].1)
    else LastRow(rows[..|rows| - 1], k)
  }

  /** The first line of the log with the key. */
  function FirstMeta(log: seq<Relation>, e: Edge): Option<Meta> {
    if log == [] then None
    else if log[0].edge == e then Some(Meta(log[0].createdAt, log[0].createdBy))
    else FirstMeta(log[1..], e)
  }

  function RowImage(disk: Disk, id: string): Option<Row> {
    match ReadId(disk, id)
    case Failure(_) => None
    case Success(r) => Some(RowOf(r, RecordPath(id), disk.files[id].mtime))
  }

  function ChildImage(disk: Disk, id: string, k: ChildKey): Option<ChildRow> {
    match ReadId(disk, id)
    case Failure(_) => None
    case Success(r) => LastRow(ChildRowsOf(r.content), k)
  }

  predicate Structural(e: Edge) {
    e.kind == ParentOf || e.kind == ChildOf
  }

  ghost predicate RowsMirror(t: Tables, disk: Disk) {
    forall id :: Lookup(t.records, id) == RowImage(disk, id)
  }

  ghost predicate ChildrenMirror(t: Tables, disk: Disk) {
    forall id, k :: Lookup(t.children, (id, k)) == ChildImage(disk, id, k)
  }

  /** Every relation the records do not imply is the first of its kind in the log. */
  ghost predicate LogMirror(t: Tables, log: seq<Relation>) {
    forall e :: !Structural(e) ==> Lookup(t.relations, e) == FirstMeta(log, e)
  }

  /** The tables hold one row per readable record, its child rows, and the log. */
  ghost predicate Mirrors(t: Tables, disk: Disk) {
    && AllParsed(disk) && disk.log.Some?
    && RowsMirror(t, disk) && ChildrenMirror(t, disk) && LogMirror(t, disk.log.value)
  }

  /** The edges some record implies. */
  ghost predicate Implied(disk: Disk, e: Edge) {
    exists id :: id in disk.files && ReadId(disk, id).Success?
                 && FirstMeta(RelationsFor(ReadId(disk, id).value), e).Some?
  }

  /** The relation table holds the implied edges and the log, no others. */
  ghost predicate EdgesMirror(t: Tables, disk: Disk) {
    disk.log.Some? && forall e :: e in t.relations <==> Implied(disk, e) || FirstMeta(disk.log.value, e).Some?
  }

  // --- lookups after each statement --------------------------------------------------------------------------------

  lemma {:induction false} LookupPutAll(children: Children, id: string, rows: ChildRows, x: string, k: ChildKey)
    ensures Lookup(PutAll(children, id, rows), (x, k)) ==
            if x == id && LastRow(rows, k).Some? then LastRow(rows, k) else Lookup(children, (x, k))
  {
    if rows != [] {
      LookupPutAll(children, id, rows[..|rows| - 1], x, k);
    }
  }

  lemma {:induction false} FirstMetaAppends(log: seq<Relation>, r: Relation, e: Edge)
    ensures FirstMeta(log + [r], e) ==
            if FirstMeta(log, e).Some? then FirstMeta(log, e)
            else if r.edge == e then Some(Meta(r.createdAt, r.createdBy)) else None
  {
    if log != [] {
      assert (log + [r])[1..] == log[1..] + [r];
      FirstMetaAppends(log[1..], r, e);
    }
  }

  lemma {:induction false} LookupAddAll(relations: map<Edge, Meta>, more: seq<Relation>, e: Edge)
    ensures Lookup(AddAll(relations, more), e) ==
            if e in relations then Some(relations[e]) else FirstMeta(more, e)
  {
    if more != [] {
      var n := |more| - 1;
      LookupAddAll(relations, more[..n], e);
      FirstMetaAppends(more[..n], more[n], e);
      assert more == more[..n] + [more[n]];
    }
  }

  lemma LookupWithRecord(t: Tables, r: RecordState, p: Path, mtime: int, x: string, k: ChildKey)
    ensures Lookup(WithRecord(t, r, p, mtime).children, (x, k)) ==
            if x == r.content.id then LastRow(ChildRowsOf(r.content), k) else Lookup(t.children, (x, k))
  {
    hide ChildRowsOf, RowOf;
    LookupPutAll(WithoutChildren(t.children, r.content.id), r.content.id, ChildRowsOf(r.content), x, k);
  }

  /** The last changed path that spells the id. */
  function LastPath(changed: seq<Path>, id: string): Option<Path> {
    if changed == [] then None
    else if IdFromPath(changed[|changed| - 1]) == Some(id) then Some(changed[|changed| - 1])
    else LastPath(changed[..|changed| - 1], id)
  }

  lemma {:induction false} LastPathIn(changed: seq<Path>, id: string)
    ensures LastPath(changed, id).Some? ==>
      LastPath(changed, id).value in changed && IdFromPath(LastPath(changed, id).value) == Some(id)
    ensures LastPath(changed, id).None? ==> forall p :: p in changed ==> IdFromPath(p) != Some(id)
  {
    if changed != [] {
      LastPathIn(changed[..|changed| - 1], id);
      assert changed == changed[..|changed| - 1] + [changed[|changed| - 1]];
    }
  }

  /** Removal drops exactly the rows kept under one of the paths. */
  lemma {:induction false} RowsAfterRemoved(t: Tables, removed: seq<Path>, id: string, k: ChildKey)
    requires Consistent(t)
    ensures Consistent(AfterRemoved(t, removed))
    ensures Lookup(AfterRemoved(t, removed).records, id) ==
            if id in t.records && t.records[id].filePath in removed then None else Lookup(t.records, id)
    ensures Lookup(AfterRemoved(t, removed).children, (id, k)) ==
            if id in t.records && t.records[id].filePath in removed then None else Lookup(t.children, (id, k))
    ensures AfterRemoved(t, removed).relations == t.relations
  {
    if removed != [] {
      var n := |removed| - 1;
      RowsAfterRemoved(t, removed[..n], id, k);
      assert removed == removed[..n] + [removed[n]];
    }
  }

  /** Of several changed paths with the same id, the last one counts. */
  lemma {:induction false} RowsAfterChanged(t: Tables, disk: Disk, changed: seq<Path>, id: string, k: ChildKey)
    requires LaidOut(disk) && AllReadable(disk, changed)
    ensures LastPath(changed, id).Some? ==> ReadId(disk, id).Success?
    ensures Lookup(AfterChanged(t, disk, changed).records, id) ==
            (match LastPath(changed, id)
             case None => Lookup(t.records, id)
             case Some(p) => Some(RowOf(ReadId(disk, id).value, p, Mtime(disk, p))))
    ensures Lookup(AfterChanged(t, disk, changed).children, (id, k)) ==
            if LastPath(changed, id).None? then Lookup(t.children, (id, k)) else ChildImage(disk, id, k)
  {
    hide ChildRowsOf, RowOf, Mtime, LastRow, LaidOut;
    if changed != [] {
      var n := |changed| - 1;
      RowsAfterChanged(t, disk, changed[..n], id, k);
      RowsAfterReread(AfterChanged(t, disk, changed[..n]), disk, changed[n], id, k);
    }
  }

  lemma RowsAfterReread(t: Tables, disk: Disk, p: Path, id: string, k: ChildKey)
    requires LaidOut(disk) && ReadPath(disk, p).Success?
    ensures IdFromPath(p).Some? && ReadPath(disk, p) == ReadId(disk, IdFromPath(p).value)
    ensures Lookup(Reread(t, disk, p).records, id) ==
            if IdFromPath(p) == Some(id) then Some(RowOf(ReadId(disk, id).value, p, Mtime(disk, p)))
            else Lookup(t.records, id)
    ensures Lookup(Reread(t, disk, p).children, (id, k)) ==
            if IdFromPath(p) == Some(id) then ChildImage(disk, id, k) else Lookup(t.children, (id, k))
  {
    hide ChildRowsOf, RowOf, Mtime, LastRow;
    var r := ReadPath(disk, p).value;
    LookupWithRecord(t, r, p, Mtime(disk, p), id, k);
  }

  /** Some reread record starts the edge, so that its relations were wiped. */
  ghost predicate Wiped(changed: seq<Path>, e: Edge) {
    exists p :: p in changed && IdFromPath(p) == Some(e.from)
  }

  lemma WipedSplits(a: seq<Path>, p: Path, e: Edge)
    ensures Wiped(a + [p], e) <==> Wiped(a, e) || IdFromPath(p) == Some(e.from)
  {
    var all := a + [p];
    assert p in all;
    assert forall q :: q in all <==> q in a || q == p;
  }

  lemma NothingWiped(none: seq<Path>, e: Edge)
    requires none == []
    ensures !Wiped(none, e)
  {
  }

  /** Rereading wipes the relations its records start; any other one the records do not imply stays. */
  lemma {:induction false} RelationsAfterChanged(t: Tables, disk: Disk, changed: seq<Path>, e: Edge)
    requires AllReadable(disk, changed) && LaidOut(disk) && !Structural(e)
    ensures Lookup(AfterChanged(t, disk, changed).relations, e) ==
            if Wiped(changed, e) then None else Lookup(t.relations, e)
  {
    hide Reread, ReadPath, Wiped, LaidOut;
    if changed == [] {
      NothingWiped(changed, e);
    } else {
      var n := |changed| - 1;
      RelationsAfterChanged(t, disk, changed[..n], e);
      assert changed == changed[..n] + [changed[n]];
      WipedSplits(changed[..n], changed[n], e);
      RelationsAfterReread(AfterChanged(t, disk, changed[..n]), disk, changed[n], e);
    }
  }

  lemma RelationsAfterReread(t: Tables, disk: Disk, p: Path, e: Edge)
    requires LaidOut(disk) && ReadPath(disk, p).Success? && !Structural(e)
    ensures Lookup(Reread(t, disk, p).relations, e) ==
            if IdFromPath(p) == Some(e.from) then None else Lookup(t.relations, e)
  {
    hide WithRecord, RelationsFor, Structural;
    var r := ReadPath(disk, p).value;
    LookupAddAll(WithoutFrom(t.relations, r.content.id), RelationsFor(r), e);
    RelationsForStructural(r, e);
  }

  lemma {:induction false} FirstMetaIn(log: seq<Relation>, e: Edge)
    ensures FirstMeta(log, e).Some? <==> exists r :: r in log && r.edge == e
  {
    if log != [] {
      FirstMetaIn(log[1..], e);
      assert log == [log[0]] + log[1..];
    }
  }

  lemma RelationsForStructural(r: RecordState, e: Edge)
    ensures FirstMeta(RelationsFor(r), e).Some? ==> Structural(e)
  {
    FirstMetaIn(RelationsFor(r), e);
    match r.content.body
    case EpicBody(_, children) => EpicEdgesStructural(r.content, children);
    case _ =>
  }

  lemma {:induction false} EpicEdgesStructural(c: Content, children: seq<string>)
    ensures forall r :: r in EpicEdges(c, children) ==> Structural(r.edge)
  {
    if children != [] {
      EpicEdgesStructural(c, children[1..]);
    }
  }

  // --- when a refresh equals a rebuild -----------------------------------------------------------------------------

  /** Nothing of the file that the index looks at is different: content, history and age. */
  predicate SameFile(a: Disk, b: Disk, id: string) {
    if id !in a.files || id !in b.files then id !in a.files && id !in b.files
    else
      match (a.files[id].parsed, b.files[id].parsed)
      case (Some(r), Some(s)) =>
        r.content == s.content && r.history == s.history && a.files[id].mtime == b.files[id].mtime
      case _ => false
  }

  /** The file's change is reported: a path where it now is, or one where it no longer is, or no change. */
  predicate CoveredAt(before: Disk, after: Disk, changed: seq<Path>, removed: seq<Path>, id: string) {
    match LastPath(changed, id)
    case Some(p) => p == RecordPath(id)
    case None =>
      if id in before.files && RecordPath(id) in removed then id !in after.files else SameFile(before, after, id)
  }

  ghost predicate Covers(before: Disk, after: Disk, changed: seq<Path>, removed: seq<Path>) {
    forall id :: CoveredAt(before, after, changed, removed, id)
  }

  /** The state hash in a row commits to everything the child tables hold. */
  lemma SameRowIsSameFile(a: Disk, b: Disk, id: string)
    requires LaidOut(a) && LaidOut(b) && (id in a.files ==> a.files[id].parsed.Some?)
    ensures SameFile(a, b, id) <==> RowImage(a, id) == RowImage(b, id) && (id in b.files ==> b.files[id].parsed.Some?)
    ensures SameFile(a, b, id) ==> forall k :: ChildImage(a, id, k) == ChildImage(b, id, k)
  {
    hide ChildRowsOf, LastRow;
  }

  /** What an incremental refresh leaves for one id, when the tables mirrored the disk before. */
  lemma RefreshedAt(t: Tables, before: Disk, after: Disk, changed: seq<Path>, removed: seq<Path>,
                    id: string, k: ChildKey)
    requires LaidOut(before) && LaidOut(after) && Consistent(t) && Mirrors(t, before)
    requires AllReadable(after, changed) && after.log.Some?
    ensures LastPath(changed, id).Some? ==> ReadId(after, id).Success?
    ensures Lookup(Refreshed(t, after, changed, removed).records, id) ==
            (match LastPath(changed, id)
             case Some(p) => Some(RowOf(ReadId(after, id).value, p, Mtime(after, p)))
             case None => if id in before.files && RecordPath(id) in removed then None else RowImage(before, id))
    ensures Lookup(Refreshed(t, after, changed, removed).children, (id, k)) ==
            (match LastPath(changed, id)
             case Some(p) => ChildImage(after, id, k)
             case None => if id in before.files && RecordPath(id) in removed then None else ChildImage(before, id, k))
  {
    hide ChildRowsOf, RowOf, Mtime, LastRow, LaidOut, LogMirror, AfterChanged, AfterRemoved, AddAll, ReadPath;
    RowsAfterRemoved(t, removed, id, k);
    RowsAfterChanged(AfterRemoved(t, removed), after, changed, id, k);
    RowIsKept(t, before, id);
    assert Lookup(t.children, (id, k)) == ChildImage(before, id, k);
  }

  /** A mirrored row is kept under the record's own path. */
  lemma RowIsKept(t: Tables, disk: Disk, id: string)
    requires Mirrors(t, disk)
    ensures Lookup(t.records, id) == RowImage(disk, id)
    ensures id in t.records <==> id in disk.files
    ensures id in t.records ==> t.records[id].filePath == RecordPath(id)
  {
    hide ChildrenMirror, LogMirror;
    assert Lookup(t.records, id) == RowImage(disk, id);
  }

  /** A relation of the old log that is not wiped is still logged first the way it was. */
  ghost predicate LogKept(before: seq<Relation>, after: seq<Relation>, changed: seq<Path>) {
    forall e :: !Structural(e) && FirstMeta(before, e).Some? && !Wiped(changed, e) ==>
      FirstMeta(after, e) == FirstMeta(before, e)
  }

  /** What an incremental refresh leaves of a relation the records do not imply. */
  lemma RefreshedRelation(t: Tables, before: Disk, after: Disk, changed: seq<Path>, removed: seq<Path>, e: Edge)
    requires Consistent(t) && LaidOut(after) && before.log.Some? && LogMirror(t, before.log.value) && !Structural(e)
    requires AllReadable(after, changed) && after.log.Some?
    ensures Lookup(Refreshed(t, after, changed, removed).relations, e) ==
            if !Wiped(changed, e) && FirstMeta(before.log.value, e).Some? then FirstMeta(before.log.value, e)
            else FirstMeta(after.log.value, e)
  {
    hide Structural, FirstMeta, AfterChanged, AfterRemoved, AddAll, Consistent, LaidOut, Wiped;
    var u := AfterRemoved(t, removed);
    RowsAfterRemoved(t, removed, "", ClaimKey);
    RelationsAfterChanged(u, after, changed, e);
    LookupAddAll(AfterChanged(u, after, changed).relations, after.log.value, e);
    assert Lookup(t.relations, e) == FirstMeta(before.log.value, e);
  }

  /** After an incremental refresh the relations the records do not imply are those of the log, with its authors and
      times, exactly if the log kept those that were not wiped. */
  lemma RefreshedLog(t: Tables, before: Disk, after: Disk, changed: seq<Path>, removed: seq<Path>)
    requires Consistent(t) && LaidOut(after) && before.log.Some? && LogMirror(t, before.log.value)
    requires AllReadable(after, changed) && after.log.Some?
    ensures LogMirror(Refreshed(t, after, changed, removed), after.log.value) <==>
            LogKept(before.log.value, after.log.value, changed)
  {
    hide Structural, FirstMeta, Refreshed, Consistent, LaidOut, Wiped, AllReadable;
    var u := Refreshed(t, after, changed, removed);
    forall e | !Structural(e)
      ensures Lookup(u.relations, e) ==
              if !Wiped(changed, e) && FirstMeta(before.log.value, e).Some? then FirstMeta(before.log.value, e)
              else FirstMeta(after.log.value, e)
    {
      RefreshedRelation(t, before, after, changed, removed, e);
    }
  }

  /** A log that only grew keeps everything. */
  lemma GrownLogIsKept(before: seq<Relation>, after: seq<Relation>, changed: seq<Path>)
    requires before <= after
    ensures LogKept(before, after, changed)
  {
    hide FirstMeta, Wiped, Structural;
    forall e {
      FirstMetaGrows(before, after, e);
    }
  }

  lemma {:induction false} FirstMetaGrows(log: seq<Relation>, more: seq<Relation>, e: Edge)
    requires log <= more
    ensures FirstMeta(log, e).Some? ==> FirstMeta(more, e) == FirstMeta(log, e)
  {
    if log != [] && log[0].edge != e {
      FirstMetaGrows(log[1..], more[1..], e);
    }
  }

  /** One id: the tables are right about it after the refresh exactly when its change was covered. */
  lemma RefreshIsExactAt(t: Tables, before: Disk, after: Disk, changed: seq<Path>, removed: seq<Path>, id: string)
    requires LaidOut(before) && LaidOut(after) && Consistent(t) && Mirrors(t, before)
    requires AllReadable(after, changed) && after.log.Some?
    ensures CoveredAt(before, after, changed, removed, id) <==>
      (Lookup(Refreshed(t, after, changed, removed).records, id) == RowImage(after, id)
       && (id in after.files ==> after.files[id].parsed.Some?))
    ensures CoveredAt(before, after, changed, removed, id) ==>
      forall k :: Lookup(Refreshed(t, after, changed, removed).children, (id, k)) == ChildImage(after, id, k)
  {
    hide Refreshed, SameFile, ChildRowsOf, LastRow, LogMirror, RowsMirror, ChildrenMirror, LaidOut, Consistent;
    SameRowIsSameFile(before, after, id);
    forall k {
      RefreshedAt(t, before, after, changed, removed, id, k);
    }
    RefreshedAt(t, before, after, changed, removed, id, ClaimKey);
    LastPathIn(changed, id);
  }

  /** The incremental refresh leaves what a rebuild would exactly when the reported paths cover what happened on disk
      and the log kept what was not wiped. */
  lemma IncrementIsExact(t: Tables, before: Disk, after: Disk, changed: seq<Path>, removed: seq<Path>)
    requires LaidOut(before) && LaidOut(after) && Consistent(t) && Mirrors(t, before)
    requires AllReadable(after, changed) && after.log.Some?
    ensures Mirrors(Refreshed(t, after, changed, removed), after) <==>
            Covers(before, after, changed, removed) && LogKept(before.log.value, after.log.value, changed)
  {
    hide Refreshed, CoveredAt, RowImage, ChildImage, LogMirror, LogKept, LaidOut, Consistent, AllReadable;
    var u := Refreshed(t, after, changed, removed);
    RefreshedLog(t, before, after, changed, removed);
    if Covers(before, after, changed, removed) {
      forall id, k
        ensures Lookup(u.children, (id, k)) == ChildImage(after, id, k)
      {
        assert CoveredAt(before, after, changed, removed, id);
        RefreshIsExactAt(t, before, after, changed, removed, id);
      }
      forall id
        ensures Lookup(u.records, id) == RowImage(after, id)
      {
        assert CoveredAt(before, after, changed, removed, id);
        RefreshIsExactAt(t, before, after, changed, removed, id);
      }
      forall id | id in after.files
        ensures after.files[id].parsed.Some?
      {
        assert CoveredAt(before, after, changed, removed, id);
        RefreshIsExactAt(t, before, after, changed, removed, id);
      }
    }
    if Mirrors(u, after) {
      forall id
        ensures CoveredAt(before, after, changed, removed, id)
      {
        assert Lookup(u.records, id) == RowImage(after, id);
        RefreshIsExactAt(t, before, after, changed, removed, id);
      }
    }
  }

  // --- a rebuild ---------------------------------------------------------------------------------------------------

  lemma {:induction false} LookupIndexedAll(disk: Disk, order: seq<string>, id: string, k: ChildKey)
    requires AllFound(disk, order) && LaidOut(disk)
    ensures Lookup(IndexedAll(Tables(map[], map[], map[]), disk, order).records, id) ==
            if id in order then RowImage(disk, id) else None
    ensures Lookup(IndexedAll(Tables(map[], map[], map[]), disk, order).children, (id, k)) ==
            if id in order then ChildImage(disk, id, k) else None
  {
    hide ChildRowsOf, RowOf, LastRow;
    if order != [] {
      var n := |order| - 1;
      LookupIndexedAll(disk, order[..n], id, k);
      assert order == order[..n] + [order[n]];
      LookupWithRecord(IndexedAll(Tables(map[], map[], map[]), disk, order[..n]), ReadId(disk, order[n]).value,
                       RecordPath(order[n]), Mtime(disk, RecordPath(order[n])), id, k);
    }
  }

  lemma {:induction false} LookupImpliedAll(disk: Disk, order: seq<string>, e: Edge)
    requires AllFound(disk, order)
    ensures e in ImpliedAll(map[], disk, order) <==>
            exists id :: id in order && FirstMeta(RelationsFor(ReadId(disk, id).value), e).Some?
    ensures e in ImpliedAll(map[], disk, order) ==> Structural(e)
  {
    hide RelationsFor, Structural, ReadId;
    if order != [] {
      var n := |order| - 1;
      LookupImpliedAll(disk, order[..n], e);
      assert order == order[..n] + [order[n]];
      var r := ReadId(disk, order[n]).value;
      LookupAddAll(ImpliedAll(map[], disk, order[..n]), RelationsFor(r), e);
      RelationsForStructural(r, e);
    }
  }

  lemma RebuiltRelations(disk: Disk, order: seq<string>, e: Edge)
    requires AllFound(disk, order) && disk.log.Some? && Enumerates(order, disk)
    ensures e in Rebuilt(disk, order).relations <==> Implied(disk, e) || FirstMeta(disk.log.value, e).Some?
    ensures !Structural(e) ==> Lookup(Rebuilt(disk, order).relations, e) == FirstMeta(disk.log.value, e)
  {
    hide RelationsFor, Structural, IndexedAll, ImpliedAll, AddAll, FirstMeta, ReadId;
    LookupImpliedAll(disk, order, e);
    LookupAddAll(ImpliedAll(map[], disk, order), disk.log.value, e);
  }

  /** Whatever order the records come in, a rebuild mirrors the disk. */
  lemma RebuiltMirrors(disk: Disk, order: seq<string>)
    requires AllFound(disk, order) && disk.log.Some? && Enumerates(order, disk) && LaidOut(disk) && AllParsed(disk)
    ensures Mirrors(Rebuilt(disk, order), disk) && EdgesMirror(Rebuilt(disk, order), disk)
  {
    hide RowImage, ChildImage, IndexedAll, ImpliedAll, AddAll, FirstMeta, Structural, Implied;
    var t := Rebuilt(disk, order);
    forall id
      ensures Lookup(t.records, id) == RowImage(disk, id)
    {
      LookupIndexedAll(disk, order, id, ClaimKey);
      NoFileNoImage(disk, id, ClaimKey);
    }
    forall id, k
      ensures Lookup(t.children, (id, k)) == ChildImage(disk, id, k)
    {
      LookupIndexedAll(disk, order, id, k);
      NoFileNoImage(disk, id, k);
    }
    forall e {
      RebuiltRelations(disk, order, e);
    }
  }

  /** What the columns of a mirrored row say: the stored record, where it is kept, and how old the file is. */
  lemma MirroredRow(t: Tables, disk: Disk, id: string)
    requires Mirrors(t, disk) && LaidOut(disk)
    ensures id in t.records <==> id in disk.files
    ensures id in t.records && disk.files[id].parsed.Some? ==>
              var row, r := t.records[id], disk.files[id].parsed.value;
              var c := r.content;
              && c.id == id && row.kind == c.kind && row.title == c.title && row.status == c.status
              && row.priority == c.priority && row.owner == c.owner && row.createdBy == c.createdBy
              && row.createdAt == c.createdAt && row.updatedAt == c.updatedAt && row.closedAt == c.closedAt
              && row.owningScope == c.owningScope && row.origin == c.origin
              && row.stateHash == Digest(c, r.history) && row.filePath == RecordPath(id)
              && row.fileMtime == disk.files[id].mtime
              && (match c.body
                  case TaskBody(_, parent, _, _, _) => row.parentId == parent
                  case SubtaskBody(_, parent, _, _, _) => row.parentId == Some(parent)
                  case _ => row.parentId == None)
  {
    RowIsKept(t, disk, id);
    hide Mirrors;
  }

  // The number of relation inserts does not depend on the order either: it is a sum over the records.

  function EdgesOf(disk: Disk, id: string): nat {
    match ReadId(disk, id)
    case Failure(_) => 0
    case Success(r) => |RelationsFor(r)|
  }

  lemma {:induction false} CountWithout(disk: Disk, order: seq<string>, i: nat)
    requires AllFound(disk, order) && i < |order|
    ensures AllFound(disk, order[..i] + order[i + 1..])
    ensures ImpliedCount(disk, order) == ImpliedCount(disk, order[..i] + order[i + 1..]) + EdgesOf(disk, order[i])
    decreases |order|
  {
    hide RelationsFor, ReadId;
    var n := |order| - 1;
    var rest := order[..i] + order[i + 1..];
    if i == n {
      assert rest == order[..n];
    } else {
      assert order[..n][..i] + order[..n][i + 1..] == rest[..n - 1];
      assert rest[n - 1] == order[n];
      CountWithout(disk, order[..n], i);
    }
  }

  lemma {:induction false} CountIgnoresOrder(disk: Disk, a: seq<string>, b: seq<string>)
    requires multiset(a) == multiset(b) && AllFound(disk, a) && AllFound(disk, b)
    ensures ImpliedCount(disk, a) == ImpliedCount(disk, b)
    decreases |a|
  {
    hide ReadId;
    assert |a| == |multiset(a)| == |multiset(b)| == |b|;
    if a != [] {
      var n := |a| - 1;
      assert a == a[..n] + [a[n]];
      assert a[n] in multiset(b);
      var i :| 0 <= i < |b| && b[i] == a[n];
      assert b == b[..i] + [b[i]] + b[i + 1..];
      CountWithout(disk, a, n);
      CountWithout(disk, b, i);
      assert a[..n] + a[n + 1..] == a[..n];
      assert multiset(a[..n]) == multiset(a) - multiset{a[n]};
      assert multiset(b[..i] + b[i + 1..]) == multiset(b) - multiset{b[i]};
      CountIgnoresOrder(disk, a[..n], b[..i] + b[i + 1..]);
    }
  }

  lemma {:induction false} CountedOnce(order: seq<string>, id: string)
    requires forall i, j :: 0 <= i < j < |order| ==> order[i] != order[j]
    ensures multiset(order)[id] == if id in order then 1 else 0
  {
    if order != [] {
      CountedOnce(order[..|order| - 1], id);
      assert order == order[..|order| - 1] + [order[|order| - 1]];
    }
  }

  /** Two rebuilds of one disk report the same, whatever order storage yields the records in. */
  lemma RebuildReportIsDetermined(disk: Disk, a: seq<string>, b: seq<string>)
    requires Enumerates(a, disk) && Enumerates(b, disk) && AllFound(disk, a) && AllFound(disk, b)
    ensures ImpliedCount(disk, a) == ImpliedCount(disk, b)
  {
    forall id
      ensures multiset(a)[id] == multiset(b)[id]
    {
      CountedOnce(a, id);
      CountedOnce(b, id);
    }
    CountIgnoresOrder(disk, a, b);
  }

  lemma NoFileNoImage(disk: Disk, id: string, k: ChildKey)
    ensures id !in disk.files ==> RowImage(disk, id) == None && ChildImage(disk, id, k) == None
  {
  }

  /** Rows, child rows and log relations are a function of the disk. */
  lemma MirrorsAgree(a: Tables, b: Tables, disk: Disk)
    requires Mirrors(a, disk) && Mirrors(b, disk)
    ensures a.records == b.records && a.children == b.children
    ensures forall e :: !Structural(e) ==> Lookup(a.relations, e) == Lookup(b.relations, e)
  {
    hide RowImage, ChildImage, FirstMeta, Structural;
    SameLookups(a.records, b.records, id => RowImage(disk, id));
    forall c: (string, ChildKey)
      ensures Lookup(a.children, c) == Lookup(b.children, c)
    {
      var (id, k) := c;
      assert Lookup(a.children, (id, k)) == ChildImage(disk, id, k) == Lookup(b.children, (id, k));
    }
    SameLookups(a.children, b.children, c => Lookup(a.children, c));
  }

  lemma SameLookups<K(!new), V>(a: map<K, V>, b: map<K, V>, f: K -> Option<V>)
    requires forall k :: Lookup(a, k) == f(k)
    requires forall k :: Lookup(b, k) == f(k)
    ensures a == b
  {
    forall k
      ensures k in a <==> k in b
      ensures k in a ==> a[k] == b[k]
    {
      assert Lookup(a, k) == Lookup(b, k);
    }
  }

  // --- both sides of the threshold ---------------------------------------------------------------------------------

  lemma {:induction false} AfterChangedIsConsistent(t: Tables, disk: Disk, changed: seq<Path>)
    requires Consistent(t) && LaidOut(disk) && AllReadable(disk, changed)
    ensures Consistent(AfterChanged(t, disk, changed))
  {
    hide Reread, Consistent, LaidOut, ReadPath;
    if changed != [] {
      AfterChangedIsConsistent(t, disk, changed[..|changed| - 1]);
      RereadIsConsistent(AfterChanged(t, disk, changed[..|changed| - 1]), disk, changed[|changed| - 1]);
    }
  }

  lemma RefreshedIsConsistent(t: Tables, disk: Disk, changed: seq<Path>, removed: seq<Path>)
    requires Consistent(t) && LaidOut(disk) && AllReadable(disk, changed) && disk.log.Some?
    ensures Consistent(Refreshed(t, disk, changed, removed))
  {
    RowsAfterRemoved(t, removed, "", ClaimKey);
    AfterChangedIsConsistent(AfterRemoved(t, removed), disk, changed);
  }

  lemma RebuiltIsConsistent(disk: Disk, order: seq<string>)
    requires AllFound(disk, order) && disk.log.Some? && Enumerates(order, disk) && LaidOut(disk)
    ensures Consistent(Rebuilt(disk, order))
  {
    hide Consistent, LaidOut, ReadId;
    IndexedAllIsConsistent(disk, order);
    WithRelationsIsConsistent(IndexedAll(Tables(map[], map[], map[]), disk, order), Rebuilt(disk, order).relations);
  }

  lemma WithRelationsIsConsistent(t: Tables, relations: map<Edge, Meta>)
    requires Consistent(t)
    ensures Consistent(t.(relations := relations))
  {
  }

  lemma LeavesIsConsistent(t: Tables, disk: Disk, changed: seq<Path>, removed: seq<Path>, u: Tables)
    requires Consistent(t) && LaidOut(disk) && Leaves(t, disk, changed, removed, u)
    ensures Consistent(u)
  {
    hide Consistent, LaidOut, Refreshed, Rebuilt, Enumerates, AllFound, AllReadable, AllParsed;
    if TooMany(changed, removed) {
      var order :| RebuiltIn(disk, order, u);
      RebuiltIsConsistent(disk, order);
    } else {
      RefreshedIsConsistent(t, disk, changed, removed);
    }
  }

  /** A refresh above the threshold mirrors the disk, whatever the tables held and the paths say. */
  lemma TooManyMirrors(t: Tables, disk: Disk, changed: seq<Path>, removed: seq<Path>, u: Tables)
    requires TooMany(changed, removed) && LaidOut(disk) && Leaves(t, disk, changed, removed, u)
    ensures Mirrors(u, disk) && EdgesMirror(u, disk)
  {
    hide LaidOut, Rebuilt, Enumerates, AllFound, Mirrors, EdgesMirror, AllParsed;
    var order :| RebuiltIn(disk, order, u);
    RebuiltMirrors(disk, order);
  }

  /** Below the threshold the reported paths cover what happened on disk and the log kept what was not wiped. */
  ghost predicate Told(before: Disk, after: Disk, changed: seq<Path>, removed: seq<Path>)
    requires before.log.Some? && after.log.Some?
  {
    TooMany(changed, removed)
    || (Covers(before, after, changed, removed) && LogKept(before.log.value, after.log.value, changed))
  }

  /** A refresh leaves what a rebuild would exactly when it is one, or is told what happened and the log kept what was
      not wiped. */
  lemma RefreshIsExact(t: Tables, before: Disk, after: Disk, changed: seq<Path>, removed: seq<Path>, u: Tables)
    requires LaidOut(before) && LaidOut(after) && Consistent(t) && Mirrors(t, before)
    requires Leaves(t, after, changed, removed, u)
    ensures Mirrors(u, after) <==> Told(before, after, changed, removed)
    ensures Told(before, after, changed, removed) <==>
            |changed| + |removed| > 500
            || (Covers(before, after, changed, removed) && LogKept(before.log.value, after.log.value, changed))
  {
    hide Mirrors, Refreshed, RebuiltIn, Covers, LogKept, LaidOut, Consistent, AllReadable, AllParsed;
    if TooMany(changed, removed) {
      TooManyMirrors(t, after, changed, removed, u);
    } else {
      MirrorsHasLog(t, before);
      IncrementIsExact(t, before, after, changed, removed);
    }
  }

  lemma MirrorsHasLog(t: Tables, disk: Disk)
    requires Mirrors(t, disk)
    ensures disk.log.Some?
  {
  }

  // --- a run of refreshes ------------------------------------------------------------------------------------------

  /** A refresh that succeeded: the disk it found, the paths it was given, and the tables it left. One that fails leaves
      the tables alone. */
  datatype Step = Step(disk: Disk, changed: seq<Path>, removed: seq<Path>, left: Tables)

  function DiskAfter(start: Disk, run: seq<Step>): Disk {
    if run == [] then start else run[|run| - 1].disk
  }

  function TablesAfter(t: Tables, run: seq<Step>): Tables {
    if run == [] then t else run[|run| - 1].left
  }

  ghost predicate IsRefresh(t: Tables, s: Step) {
    LaidOut(s.disk) && Leaves(t, s.disk, s.changed, s.removed, s.left)
  }

  /** Each step refreshes what the one before it left, incrementally or from nothing. */
  ghost predicate IsRun(t: Tables, run: seq<Step>) {
    run == [] || (IsRun(t, run[..|run| - 1]) && IsRefresh(TablesAfter(t, run[..|run| - 1]), run[|run| - 1]))
  }

  ghost predicate StepTold(before: Disk, s: Step) {
    before.log.Some? && s.disk.log.Some? && Told(before, s.disk, s.changed, s.removed)
  }

  /** Every step below the threshold is told what happened since the one before. */
  ghost predicate ToldEverything(start: Disk, run: seq<Step>) {
    run == [] ||
    (ToldEverything(start, run[..|run| - 1]) && StepTold(DiskAfter(start, run[..|run| - 1]), run[|run| - 1]))
  }

  /** The tables mirror the disk after every step. */
  ghost predicate AlwaysMirrors(start: Disk, run: seq<Step>) {
    run == [] || (AlwaysMirrors(start, run[..|run| - 1]) && Mirrors(run[|run| - 1].left, run[|run| - 1].disk))
  }

  lemma OneMoreStep(t: Tables, before: Disk, s: Step)
    requires LaidOut(before) && Consistent(t) && Mirrors(t, before) && IsRefresh(t, s)
    ensures Consistent(s.left) && (Mirrors(s.left, s.disk) <==> StepTold(before, s))
  {
    hide LaidOut, Consistent, Mirrors, TooMany, Told, AllReadable, AllParsed, RebuiltIn, Refreshed;
    MirrorsHasLog(t, before);
    RefreshIsExact(t, before, s.disk, s.changed, s.removed, s.left);
    LeavesIsConsistent(t, s.disk, s.changed, s.removed, s.left);
  }

  lemma {:induction false} RunIsConsistent(t: Tables, start: Disk, run: seq<Step>)
    requires Consistent(t) && LaidOut(start) && Mirrors(t, start) && IsRun(t, run) && AlwaysMirrors(start, run)
    ensures Consistent(TablesAfter(t, run)) && LaidOut(DiskAfter(start, run))
    ensures Mirrors(TablesAfter(t, run), DiskAfter(start, run))
  {
    hide Mirrors, Consistent, LaidOut, Leaves;
    if run != [] {
      var n := |run| - 1;
      RunIsConsistent(t, start, run[..n]);
      LeavesIsConsistent(TablesAfter(t, run[..n]), run[n].disk, run[n].changed, run[n].removed, run[n].left);
    }
  }

  /** However many refreshes follow one another, on either side of the threshold, the tables mirror the disk all along
      exactly if every one below it was told what happened since the one before. */
  lemma {:induction false} RefreshedForever(t: Tables, start: Disk, run: seq<Step>)
    requires Consistent(t) && LaidOut(start) && Mirrors(t, start) && IsRun(t, run)
    ensures AlwaysMirrors(start, run) <==> ToldEverything(start, run)
  {
    hide Mirrors, Consistent, LaidOut, Leaves, StepTold, IsRefresh;
    if run != [] {
      var n := |run| - 1;
      RefreshedForever(t, start, run[..n]);
      if AlwaysMirrors(start, run[..n]) {
        RunIsConsistent(t, start, run[..n]);
        OneMoreStep(TablesAfter(t, run[..n]), DiskAfter(start, run[..n]), run[n]);
      }
    }
  }
}
