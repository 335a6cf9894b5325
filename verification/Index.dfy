/** The query index over stored records: full rebuild and incremental refresh
    (crates/ft-index/src/index.rs and schema.rs). */
module Index {
  import opened Wrappers
  import opened Records

  /** Above this many paths a refresh turns into a rebuild. */
  const REFRESH_FULL_REBUILD_THRESHOLD := 500

  // --- the disk ----------------------------------------------------------------------------------------------------

  /** A path: where storage keeps the record, another place whose name spells the id, or a name that spells none. */
  datatype Path = RecordPath(id: string) | AliasPath(dir: string, id: string) | OtherPath(text: string)

  /** `id_from_path`. */
  function IdFromPath(p: Path): Option<string> {
    match p
    case RecordPath(id) => Some(id)
    case AliasPath(_, id) => Some(id)
    case OtherPath(_) => None
  }

  /** A line of the relation log. */
  datatype Relation = Relation(edge: Edge, createdAt: Timestamp, createdBy: Identity)

  /** A record file: the record it parses to, unless storage refuses it, and when it was written. */
  datatype File = File(parsed: Option<RecordState>, mtime: int)

  /** The record files by id, the ages of other files, and the relation log unless a line of it is malformed. */
  datatype Disk = Disk(files: map<string, File>, ages: map<Path, int>, log: Option<seq<Relation>>)

  /** Storage accepts a record only with its own hash. That it keeps each under its own id is an assumption: reading
      does not compare them. */
  ghost predicate LaidOut(disk: Disk) {
    forall id :: id in disk.files && disk.files[id].parsed.Some? ==>
      disk.files[id].parsed.value.content.id == id
      && disk.files[id].parsed.value.stateHash == StateHash(disk.files[id].parsed.value)
  }

  predicate AllParsed(disk: Disk) {
    forall id :: id in disk.files ==> disk.files[id].parsed.Some?
  }

  /** Seconds since the epoch, zero when the file cannot be asked. */
  function Mtime(disk: Disk, p: Path): int {
    if p.RecordPath? && p.id in disk.files then disk.files[p.id].mtime
    else if p in disk.ages then disk.ages[p]
    else 0
  }

  datatype IndexError = BadPath(path: Path) | MissingRecord(id: string) | Unreadable(id: string) | BadLog

  /** `id_from_path` then `Storage::read`. */
  function ReadPath(disk: Disk, p: Path): Result<RecordState, IndexError> {
    match IdFromPath(p)
    case None => Failure(BadPath(p))
    case Some(id) => ReadId(disk, id)
  }

  function ReadId(disk: Disk, id: string): Result<RecordState, IndexError> {
    if id !in disk.files then Failure(MissingRecord(id))
    else if disk.files[id].parsed.None? then Failure(Unreadable(id))
    else Success(disk.files[id].parsed.value)
  }

  // --- the tables --------------------------------------------------------------------------------------------------

  datatype Row = Row(
    kind: RecordKind, title: string, status: Status, priority: Priority, owner: Option<Identity>, createdBy: Identity,
    createdAt: Timestamp, updatedAt: Timestamp, closedAt: Option<Timestamp>, owningScope: Option<string>,
    stateHash: Hash, filePath: Path, fileMtime: int, origin: Origin, parentId: Option<string>)

  /** A primary key of one of the six child tables, without the record id every one of them starts with. */
  datatype ChildKey =
    | LabelKey(key: string, value: string) | ScopeKey(scope: string) | GlobKey(glob: string)
    | ClaimKey | CriterionKey(criterion: string) | EvidenceKey(evidence: string)

  datatype ChildRow =
    | Present | ClaimRow(claim: Claim) | CriterionRow(ac: AcceptanceCriterion) | EvidenceRow(ev: Evidence)

  datatype Meta = Meta(createdAt: Timestamp, createdBy: Identity)

  datatype Tables = Tables(
    records: map<string, Row>, children: map<(string, ChildKey), ChildRow>, relations: map<Edge, Meta>)

  function Lookup<K, V>(m: map<K, V>, k: K): Option<V> {
    if k in m then Some(m[k]) else None
  }

  /** The foreign keys, and a path column that spells the id column. */
  ghost predicate Consistent(t: Tables) {
    && (forall c :: c in t.children ==> c.0 in t.records)
    && (forall id :: id in t.records ==> IdFromPath(t.records[id].filePath) == Some(id))
  }

  function ParentIdOf(b: Body): Option<string> {
    match b
    case TaskBody(_, parent, _, _, _) => parent
    case SubtaskBody(_, parent, _, _, _) => Some(parent)
    case _ => None
  }

  function ClaimOf(b: Body): Option<Claim> {
    if b.TaskBody? || b.SubtaskBody? || b.BugBody? then b.claim else None
  }

  function EvidenceOf(b: Body): seq<Evidence> {
    if b.TaskBody? || b.SubtaskBody? || b.BugBody? then b.evidence else []
  }

  function RowOf(r: RecordState, p: Path, mtime: int): Row {
    var c := r.content;
    Row(c.kind, c.title, c.status, c.priority, c.owner, c.createdBy, c.createdAt, c.updatedAt, c.closedAt,
        c.owningScope, r.stateHash, p, mtime, c.origin, ParentIdOf(c.body))
  }

  type ChildRows = seq<(ChildKey, ChildRow)>

  /** What `insert_record` inserts into the child tables, in order. */
  function ChildRowsOf(c: Content): ChildRows {
    LabelRows(c.labels) + ScopeRows(c.affectedScopes) + GlobRows(c.appliesTo)
    + ClaimRows(ClaimOf(c.body)) + CriterionRows(CriteriaOf(c.body)) + EvidenceRows(EvidenceOf(c.body))
  }

  function LabelRows(labels: seq<Label>): ChildRows {
    seq(|labels|, i requires 0 <= i < |labels| => (LabelKey(labels[i].key, labels[i].value), Present))
  }

  function ScopeRows(scopes: seq<string>): ChildRows {
    seq(|scopes|, i requires 0 <= i < |scopes| => (ScopeKey(scopes[i]), Present))
  }

  function GlobRows(globs: seq<string>): ChildRows {
    seq(|globs|, i requires 0 <= i < |globs| => (GlobKey(globs[i]), Present))
  }

  function ClaimRows(claim: Option<Claim>): ChildRows {
    match claim
    case None => []
    case Some(c) => [(ClaimKey, ClaimRow(c))]
  }

  function CriterionRows(criteria: seq<AcceptanceCriterion>): ChildRows {
    seq(|criteria|, i requires 0 <= i < |criteria| => (CriterionKey(criteria[i].id), CriterionRow(criteria[i])))
  }

  function EvidenceRows(evidence: seq<Evidence>): ChildRows {
    seq(|evidence|, i requires 0 <= i < |evidence| => (EvidenceKey(evidence[i].id), EvidenceRow(evidence[i])))
  }

  /** The edges a record's own fields imply. */
  function RelationsFor(r: RecordState): seq<Relation> {
    var c := r.content;
    match c.body
    case TaskBody(_, Some(p), _, _, _) => [EdgeFrom(c, Edge(c.id, p, ChildOf)), EdgeFrom(c, Edge(p, c.id, ParentOf))]
    case SubtaskBody(_, p, _, _, _) => [EdgeFrom(c, Edge(c.id, p, ChildOf)), EdgeFrom(c, Edge(p, c.id, ParentOf))]
    case EpicBody(_, children) => EpicEdges(c, children)
    case _ => []
  }

  function EdgeFrom(c: Content, e: Edge): Relation {
    Relation(e, c.createdAt, c.createdBy)
  }

  function EpicEdges(c: Content, children: seq<string>): seq<Relation> {
    if children == [] then []
    else
      [EdgeFrom(c, Edge(c.id, children[0], ParentOf)), EdgeFrom(c, Edge(children[0], c.id, ChildOf))]
      + EpicEdges(c, children[1..])
  }

  // --- what the statements do --------------------------------------------------------------------------------------

  type Children = map<(string, ChildKey), ChildRow>

  function WithoutChildren(children: Children, id: string): Children {
    map c | c in children && c.0 != id :: children[c]
  }

  /** The rows, one after the other, each replacing one with the same key. */
  function PutAll(children: Children, id: string, rows: ChildRows): Children {
    if rows == [] then children
    else
      var n := |rows| - 1;
      PutAll(children, id, rows[..n])[(id, rows[n].0) := rows[n].1]
  }

  function WithoutFrom(relations: map<Edge, Meta>, id: string): map<Edge, Meta> {
    map e | e in relations && e.from != id :: relations[e]
  }

  /** The relations, one after the other, unless there is one with the same key. */
  function AddAll(relations: map<Edge, Meta>, more: seq<Relation>): map<Edge, Meta> {
    if more == [] then relations
    else
      var n := |more| - 1;
      var before := AddAll(relations, more[..n]);
      if more[n].edge in before then before else before[more[n].edge := Meta(more[n].createdAt, more[n].createdBy)]
  }

  function WithRecord(t: Tables, r: RecordState, p: Path, mtime: int): Tables {
    var id := r.content.id;
    t.(records := t.records[id := RowOf(r, p, mtime)],
       children := PutAll(WithoutChildren(t.children, id), id, ChildRowsOf(r.content)))
  }

  function DropPath(t: Tables, p: Path): Tables {
    match IdFromPath(p)
    case None => t
    case Some(id) =>
      if id in t.records && t.records[id].filePath == p
      then t.(records := t.records - {id}, children := WithoutChildren(t.children, id))
      else t
  }

  function Reread(t: Tables, disk: Disk, p: Path): Tables
    requires ReadPath(disk, p).Success?
  {
    var r := ReadPath(disk, p).value;
    var u := WithRecord(t, r, p, Mtime(disk, p));
    u.(relations := AddAll(WithoutFrom(t.relations, r.content.id), RelationsFor(r)))
  }

  function AfterRemoved(t: Tables, removed: seq<Path>): Tables {
    if removed == [] then t
    else
      var n := |removed| - 1;
      DropPath(AfterRemoved(t, removed[..n]), removed[n])
  }

  predicate AllReadable(disk: Disk, paths: seq<Path>) {
    forall p :: p in paths ==> ReadPath(disk, p).Success?
  }

  function AfterChanged(t: Tables, disk: Disk, changed: seq<Path>): Tables
    requires AllReadable(disk, changed)
  {
    if changed == [] then t
    else
      var n := |changed| - 1;
      Reread(AfterChanged(t, disk, changed[..n]), disk, changed[n])
  }

  function Refreshed(t: Tables, disk: Disk, changed: seq<Path>, removed: seq<Path>): Tables
    requires AllReadable(disk, changed) && disk.log.Some?
  {
    var u := AfterChanged(AfterRemoved(t, removed), disk, changed);
    u.(relations := AddAll(u.relations, disk.log.value))
  }

  /** The ids in the order storage yields them: each file once. */
  ghost predicate Enumerates(order: seq<string>, disk: Disk) {
    && (forall id :: id in order <==> id in disk.files)
    && (forall i, j :: 0 <= i < j < |order| ==> order[i] != order[j])
  }

  predicate AllFound(disk: Disk, order: seq<string>) {
    forall id :: id in order ==> ReadId(disk, id).Success?
  }

  function IndexedAll(t: Tables, disk: Disk, order: seq<string>): Tables
    requires AllFound(disk, order)
  {
    if order == [] then t
    else
      var id := order[|order| - 1];
      WithRecord(IndexedAll(t, disk, order[..|order| - 1]), ReadId(disk, id).value, RecordPath(id),
                 Mtime(disk, RecordPath(id)))
  }

  function ImpliedAll(relations: map<Edge, Meta>, disk: Disk, order: seq<string>): map<Edge, Meta>
    requires AllFound(disk, order)
  {
    if order == [] then relations
    else
      var id := order[|order| - 1];
      AddAll(ImpliedAll(relations, disk, order[..|order| - 1]), RelationsFor(ReadId(disk, id).value))
  }

  /** The tables filled from nothing: the records, then the edges they imply, then the log. */
  function Rebuilt(disk: Disk, order: seq<string>): Tables
    requires AllFound(disk, order) && disk.log.Some?
  {
    IndexedAll(Tables(map[], map[], map[]), disk, order).(
      relations := AddAll(ImpliedAll(map[], disk, order), disk.log.value))
  }

  /** So many paths that a refresh reads everything again. */
  predicate TooMany(changed: seq<Path>, removed: seq<Path>) {
    |changed| + |removed| > REFRESH_FULL_REBUILD_THRESHOLD
  }

  /** Everything a refresh has to read can be read. */
  predicate CanRefresh(disk: Disk, changed: seq<Path>, removed: seq<Path>) {
    disk.log.Some? && if TooMany(changed, removed) then AllParsed(disk) else AllReadable(disk, changed)
  }

  /** The tables a refresh may leave: above the threshold those of a rebuild, which takes the records in any order. */
  ghost predicate Leaves(t: Tables, disk: Disk, changed: seq<Path>, removed: seq<Path>, u: Tables) {
    CanRefresh(disk, changed, removed) &&
    if TooMany(changed, removed) then exists order :: RebuiltIn(disk, order, u)
    else u == Refreshed(t, disk, changed, removed)
  }

  ghost predicate RebuiltIn(disk: Disk, order: seq<string>, u: Tables)
    requires disk.log.Some?
  {
    Enumerates(order, disk) && AllFound(disk, order) && u == Rebuilt(disk, order)
  }

  /** The first changed path that cannot be read decides the error. */
  function FirstError(disk: Disk, changed: seq<Path>): IndexError {
    if changed == [] then BadLog
    else
      match ReadPath(disk, changed[0])
      case Failure(e) => e
      case Success(_) => FirstError(disk, changed[1..])
  }

  // --- the index ---------------------------------------------------------------------------------------------------

  /** The inserts a rebuild attempts: one a record, and one for every implied edge and every line of the log. */
  datatype RebuildReport = RebuildReport(records: nat, relations: nat)

  function ImpliedCount(disk: Disk, order: seq<string>): nat
    requires AllFound(disk, order)
  {
    if order == [] then 0
    else
      ImpliedCount(disk, order[..|order| - 1]) + |RelationsFor(ReadId(disk, order[|order| - 1]).value)|
  }

  datatype RefreshReport = RefreshReport(added: nat, updated: nat, removed: nat)

  class IndexDb {
    var db: Tables

    constructor Open()
      ensures db == Tables(map[], map[], map[]) && Consistent(db)
    {
      db := Tables(map[], map[], map[]);
    }

    method InsertRecord(r: RecordState, p: Path, mtime: int)
      modifies this
      ensures db == WithRecord(old(db), r, p, mtime)
    {
      var id := r.content.id;
      db := db.(records := db.records[id := RowOf(r, p, mtime)]);
      db := db.(children := WithoutChildren(db.children, id));
      ghost var cleared := db;
      var rows := ChildRowsOf(r.content);
      for i := 0 to |rows|
        invariant db == cleared.(children := PutAll(cleared.children, id, rows[..i]))
      {
        assert rows[..i + 1][..i] == rows[..i];
        db := db.(children := db.children[(id, rows[i].0) := rows[i].1]);
      }
      assert rows[..|rows|] == rows;
    }

    method InsertRelations(more: seq<Relation>)
      modifies this
      ensures db == old(db).(relations := AddAll(old(db).relations, more))
    {
      for i := 0 to |more|
        invariant db == old(db).(relations := AddAll(old(db).relations, more[..i]))
      {
        assert more[..i + 1][..i] == more[..i];
        if more[i].edge !in db.relations {
          db := db.(relations := db.relations[more[i].edge := Meta(more[i].createdAt, more[i].createdBy)]);
        }
      }
      assert more[..|more|] == more;
    }

    /** `DELETE FROM records WHERE id = …`, for the row with that path. */
    method RemovePath(p: Path) returns (gone: bool)
      requires Consistent(db)
      modifies this
      ensures db == DropPath(old(db), p) && gone == (db.records != old(db).records)
      ensures Consistent(db) && |db.records| == |old(db).records| - (if gone then 1 else 0)
    {
      var hits := set id | id in db.records && db.records[id].filePath == p;
      assert IdFromPath(p).Some? && DropPath(db, p) != db ==> IdFromPath(p).value in hits;
      if hits == {} {
        return false;
      }
      var id :| id in hits;
      db := db.(records := db.records - {id});
      db := db.(children := WithoutChildren(db.children, id));
      return true;
    }

    /** The records storage holds, in whatever order the directory walk yields them. */
    static method CollectRecords(disk: Disk) returns (res: Result<seq<string>, IndexError>)
      ensures res.Success? <==> AllParsed(disk)
      ensures res.Success? ==> Enumerates(res.value, disk) && AllFound(disk, res.value)
      ensures res.Success? ==> |res.value| == |disk.files|
      ensures res.Failure? ==> res.error.Unreadable? && ReadId(disk, res.error.id) == Failure(res.error)
    {
      var order: seq<string> := [];
      var left := disk.files.Keys;
      while left != {}
        invariant forall id :: id in disk.files <==> id in left || id in order
        invariant forall id :: id in left ==> id !in order
        invariant forall i, j :: 0 <= i < j < |order| ==> order[i] != order[j]
        invariant AllFound(disk, order) && |order| + |left| == |disk.files|
      {
        var id :| id in left;
        if disk.files[id].parsed.None? {
          return Failure(Unreadable(id));
        }
        order, left := order + [id], left - {id};
      }
      return Success(order);
    }

    method ClearTables()
      modifies this
      ensures db == Tables(map[], map[], map[])
    {
      db := Tables(map[], map[], map[]);
    }

    method InsertCollected(disk: Disk, all: seq<string>)
      requires AllFound(disk, all) && db == Tables(map[], map[], map[])
      modifies this
      ensures db == IndexedAll(old(db), disk, all)
    {
      hide WithRecord, Mtime, ReadId;
      for i := 0 to |all|
        invariant db == IndexedAll(old(db), disk, all[..i])
      {
        assert all[..i + 1][..i] == all[..i];
        InsertRecord(ReadId(disk, all[i]).value, RecordPath(all[i]), Mtime(disk, RecordPath(all[i])));
      }
      assert all[..|all|] == all;
    }

    /** The second pass over the same records. */
    method InsertImplied(disk: Disk, all: seq<string>) returns (indexed: nat)
      requires AllFound(disk, all) && db.relations == map[]
      modifies this
      ensures db == old(db).(relations := ImpliedAll(map[], disk, all)) && indexed == ImpliedCount(disk, all)
    {
      hide AddAll, RelationsFor, ReadId;
      indexed := 0;
      for i := 0 to |all|
        invariant db == old(db).(relations := ImpliedAll(map[], disk, all[..i]))
        invariant indexed == ImpliedCount(disk, all[..i])
      {
        assert all[..i + 1][..i] == all[..i];
        var edges := RelationsFor(ReadId(disk, all[i]).value);
        InsertRelations(edges);
        indexed := indexed + |edges|;
      }
      assert all[..|all|] == all;
    }

    /** `rebuild_from`. A failure leaves the previous tables. */
    method RebuildFrom(disk: Disk) returns (res: Result<RebuildReport, IndexError>, ghost order: seq<string>)
      requires Consistent(db) && LaidOut(disk)
      modifies this
      ensures Consistent(db)
      ensures res.Success? <==> AllParsed(disk) && disk.log.Some?
      ensures res.Success? ==> Enumerates(order, disk) && AllFound(disk, order) && db == Rebuilt(disk, order)
      ensures res.Success? ==> res.value.records == |disk.files| == |db.records|
      ensures res.Success? ==> res.value.relations == ImpliedCount(disk, order) + |disk.log.value|
      ensures res.Failure? ==> db == old(db)
      ensures res.Failure? ==>
        res.error == BadLog || (res.error.Unreadable? && ReadId(disk, res.error.id) == Failure(res.error))
    {
      hide WithRecord, RelationsFor, Mtime, ReadId, IndexedAll, ImpliedAll, ImpliedCount, AddAll, LaidOut;
      order := [];
      var saved := db;
      var collected := CollectRecords(disk);
      if collected.Failure? {
        return Failure(collected.error), [];
      }
      var all := collected.value;
      order := all;
      ClearTables();
      InsertCollected(disk, all);
      IndexedAllIsConsistent(disk, all);
      var implied := InsertImplied(disk, all);
      if disk.log.None? {
        db := saved;
        return Failure(BadLog), [];
      }
      InsertRelations(disk.log.value);
      return Success(RebuildReport(|all|, implied + |disk.log.value|)), all;
    }

    /** One changed path: its record replaces whatever the tables held of it. */
    method ReindexPath(disk: Disk, p: Path) returns (res: Result<bool, IndexError>)
      requires Consistent(db) && LaidOut(disk)
      modifies this
      ensures res.Success? <==> ReadPath(disk, p).Success?
      ensures res.Success? ==> db == Reread(old(db), disk, p) && Consistent(db)
      ensures res.Success? ==> |db.records| == |old(db).records| + (if res.value then 0 else 1)
      ensures res.Failure? ==> db == old(db) && res.error == ReadPath(disk, p).error
    {
      var read := ReadPath(disk, p);
      if read.Failure? {
        return Failure(read.error);
      }
      var r := read.value;
      var id := r.content.id;
      RereadIsConsistent(db, disk, p);
      var existed := id in db.records;
      db := db.(relations := WithoutFrom(db.relations, id));
      InsertRecord(r, p, Mtime(disk, p));
      InsertRelations(RelationsFor(r));
      return Success(existed);
    }

    method RemovePaths(removed: seq<Path>) returns (gone: nat)
      requires Consistent(db)
      modifies this
      ensures db == AfterRemoved(old(db), removed) && Consistent(db)
      ensures |db.records| + gone == |old(db).records|
    {
      hide DropPath, Consistent;
      gone := 0;
      for i := 0 to |removed|
        invariant db == AfterRemoved(old(db), removed[..i]) && Consistent(db)
        invariant |db.records| + gone == |old(db).records|
      {
        assert removed[..i + 1][..i] == removed[..i];
        var hit := RemovePath(removed[i]);
        if hit {
          gone := gone + 1;
        }
      }
      assert removed[..|removed|] == removed;
    }

    /** The loop over the changed paths, up to the first that cannot be read. */
    method ReindexPaths(disk: Disk, changed: seq<Path>) returns (res: Result<(nat, nat), IndexError>)
      requires Consistent(db) && LaidOut(disk)
      modifies this
      ensures res.Success? <==> AllReadable(disk, changed)
      ensures res.Success? ==> db == AfterChanged(old(db), disk, changed) && Consistent(db)
      ensures res.Success? ==> res.value.0 + res.value.1 == |changed|
      ensures res.Success? ==> |db.records| == |old(db).records| + res.value.0
      ensures if res.Success? then FirstError(disk, changed) == BadLog else res.error == FirstError(disk, changed)
    {
      hide Reread, Consistent, LaidOut, ReadPath;
      var added, updated := 0, 0;
      for i := 0 to |changed|
        invariant AllReadable(disk, changed[..i]) && Consistent(db)
        invariant db == AfterChanged(old(db), disk, changed[..i])
        invariant added + updated == i && |db.records| == |old(db).records| + added
        invariant FirstError(disk, changed) == FirstError(disk, changed[i..])
      {
        assert changed[..i + 1][..i] == changed[..i];
        assert changed[i..][0] == changed[i] && changed[i..][1..] == changed[i + 1..];
        var existed := ReindexPath(disk, changed[i]);
        if existed.Failure? {
          return Failure(existed.error);
        }
        if existed.value {
          updated := updated + 1;
        } else {
          added := added + 1;
        }
      }
      assert changed[..|changed|] == changed && changed[|changed|..] == [];
      return Success((added, updated));
    }

    /** `refresh` below the threshold. A failure rolls everything back. */
    method RefreshPaths(disk: Disk, changed: seq<Path>, removed: seq<Path>)
      returns (res: Result<RefreshReport, IndexError>)
      requires Consistent(db) && LaidOut(disk)
      modifies this
      ensures Consistent(db)
      ensures res.Success? <==> AllReadable(disk, changed) && disk.log.Some?
      ensures res.Success? ==> db == Refreshed(old(db), disk, changed, removed)
      ensures res.Success? ==> res.value.added + res.value.updated == |changed|
      ensures res.Success? ==> |db.records| + res.value.removed == |old(db).records| + res.value.added
      ensures res.Failure? ==> db == old(db) && res.error == FirstError(disk, changed)
    {
      hide AfterRemoved, AfterChanged, AddAll, LaidOut, FirstError;
      var saved := db;
      var gone := RemovePaths(removed);
      var indexed := ReindexPaths(disk, changed);
      if indexed.Failure? {
        db := saved;
        return Failure(indexed.error);
      }
      if disk.log.None? {
        db := saved;
        return Failure(BadLog);
      }
      InsertRelations(disk.log.value);
      return Success(RefreshReport(indexed.value.0, indexed.value.1, gone));
    }

    /** `refresh`: path by path, or all over again when there are too many. */
    method Refresh(disk: Disk, changed: seq<Path>, removed: seq<Path>) returns (res: Result<RefreshReport, IndexError>)
      requires Consistent(db) && LaidOut(disk)
      modifies this
      ensures Consistent(db) && (res.Failure? ==> db == old(db))
      ensures res.Success? <==> CanRefresh(disk, changed, removed)
      ensures res.Success? ==> Leaves(old(db), disk, changed, removed, db)
      ensures res.Success? && TooMany(changed, removed) ==> res.value == RefreshReport(|disk.files|, 0, 0)
      ensures res.Success? && !TooMany(changed, removed) ==>
        |db.records| + res.value.removed == |old(db).records| + res.value.added
        && res.value.added + res.value.updated == |changed|
    {
      hide Refreshed, Rebuilt, LaidOut, Enumerates;
      if |changed| + |removed| > REFRESH_FULL_REBUILD_THRESHOLD {
        var rebuild, order := RebuildFrom(disk);
        if rebuild.Failure? {
          return Failure(rebuild.error);
        }
        assert RebuiltIn(disk, order, db);
        return Success(RefreshReport(rebuild.value.records, 0, 0));
      }
      res := RefreshPaths(disk, changed, removed);
    }
  }

  lemma {:induction false} PutAllKeys(children: Children, id: string, rows: ChildRows)
    ensures forall c :: c in PutAll(children, id, rows) ==> c in children || c.0 == id
  {
    if rows != [] {
      PutAllKeys(children, id, rows[..|rows| - 1]);
    }
  }

  lemma WithRecordIsConsistent(t: Tables, r: RecordState, p: Path, mtime: int)
    requires Consistent(t) && IdFromPath(p) == Some(r.content.id)
    ensures Consistent(WithRecord(t, r, p, mtime))
  {
    hide ChildRowsOf;
    PutAllKeys(WithoutChildren(t.children, r.content.id), r.content.id, ChildRowsOf(r.content));
  }

  /** One more record in tables that hold those of the ids before it. */
  lemma IndexedOneMore(t: Tables, order: seq<string>, id: string, u: Tables, r: RecordState, p: Path, mtime: int)
    requires Consistent(t) && r.content.id == id && IdFromPath(p) == Some(id) && u == WithRecord(t, r, p, mtime)
    requires (forall x :: x in t.records <==> x in order) && |t.records| == |order| && id !in order
    ensures Consistent(u) && u.relations == t.relations
    ensures (forall x :: x in u.records <==> x in order + [id]) && |u.records| == |order| + 1
  {
    hide ChildRowsOf, PutAll, RowOf, Consistent, WithoutChildren;
    WithRecordIsConsistent(t, r, p, mtime);
    OneMoreKey(t.records, order, id, RowOf(r, p, mtime));
  }

  lemma OneMoreKey<V>(m: map<string, V>, order: seq<string>, id: string, v: V)
    requires (forall x :: x in m <==> x in order) && |m| == |order| && id !in order
    ensures (forall x :: x in m[id := v] <==> x in order + [id]) && |m[id := v]| == |order| + 1
  {
    assert m[id := v].Keys == m.Keys + {id};
  }

  lemma {:induction false} IndexedAllIsConsistent(disk: Disk, order: seq<string>)
    requires AllFound(disk, order) && LaidOut(disk)
    requires forall i, j :: 0 <= i < j < |order| ==> order[i] != order[j]
    ensures Consistent(IndexedAll(Tables(map[], map[], map[]), disk, order))
    ensures IndexedAll(Tables(map[], map[], map[]), disk, order).relations == map[]
    ensures forall id :: id in IndexedAll(Tables(map[], map[], map[]), disk, order).records <==> id in order
    ensures |IndexedAll(Tables(map[], map[], map[]), disk, order).records| == |order|
  {
    hide WithRecord, Mtime, Consistent;
    if order == [] {
      NothingIsConsistent();
    } else {
      var n := |order| - 1;
      IndexedAllIsConsistent(disk, order[..n]);
      assert order == order[..n] + [order[n]];
      var t := IndexedAll(Tables(map[], map[], map[]), disk, order[..n]);
      IndexedOneMore(t, order[..n], order[n], IndexedAll(Tables(map[], map[], map[]), disk, order),
                     ReadId(disk, order[n]).value, RecordPath(order[n]), Mtime(disk, RecordPath(order[n])));
    }
  }

  lemma NothingIsConsistent()
    ensures Consistent(Tables(map[], map[], map[]))
  {
  }

  lemma RereadIsConsistent(t: Tables, disk: Disk, p: Path)
    requires Consistent(t) && LaidOut(disk) && ReadPath(disk, p).Success?
    ensures Consistent(Reread(t, disk, p))
  {
    hide ChildRowsOf, PutAll, RowOf, AddAll, RelationsFor;
    WithRecordIsConsistent(t, ReadPath(disk, p).value, p, Mtime(disk, p));
  }
}
