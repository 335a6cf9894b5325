/** The `ready` query and dependency walks over mirrored tables (crates/ft-index/src/index.rs). */
module Ready {
  import opened Wrappers
  import opened Records
  import opened Index
  import opened Refresh
  import opened ChildTables
  import W = Walk

  /** A filter on kinds, owners and scopes; an absent or empty list lets everything pass. */
  datatype ReadyQuery = ReadyQuery(
    kinds: Option<seq<RecordKind>>, owners: Option<seq<Identity>>, scopes: Option<seq<string>>, includeClaimed: bool)

  predicate Passes<T(==)>(filter: Option<seq<T>>, x: T) {
    filter.None? || filter.value == [] || x in filter.value
  }

  /** A column that may be null never passes a list. */
  predicate PassesColumn<T(==)>(filter: Option<seq<T>>, x: Option<T>) {
    filter.None? || filter.value == [] || (x.Some? && x.value in filter.value)
  }

  predicate Finished(s: Status) {
    s == Closed || s == Deferred || s == Archived
  }

  // --- the query over the tables -----------------------------------------------------------------------------------

  /** A `blocked-by` row leads to the row of a record that is not finished. */
  predicate RowBlocked(t: Tables, id: string) {
    exists e :: e in t.relations && e.from == id && e.kind == BlockedBy
                && e.to in t.records && !Finished(t.records[e.to].status)
  }

  predicate RowClaimed(t: Tables, id: string, now: Timestamp) {
    (id, ClaimKey) in t.children && t.children[(id, ClaimKey)].ClaimRow?
    && t.children[(id, ClaimKey)].claim.claimExpiresAt > now
  }

  predicate RowReady(t: Tables, q: ReadyQuery, now: Timestamp, id: string)
    requires id in t.records
  {
    var row := t.records[id];
    && !Finished(row.status) && !RowBlocked(t, id) && (q.includeClaimed || !RowClaimed(t, id, now))
    && Passes(q.kinds, row.kind) && PassesColumn(q.owners, row.owner) && PassesColumn(q.scopes, row.owningScope)
  }

  /** `build_ready_sql` without a limit, as a set of ids. */
  function ReadyRows(t: Tables, q: ReadyQuery, now: Timestamp): set<string> {
    set id | id in t.records && RowReady(t, q, now, id)
  }

  // --- what the answer means ---------------------------------------------------------------------------------------

  /** Still to be done. */
  predicate Unfinished(c: Content) {
    match c.status
    case Open => true
    case Ready => true
    case InProgress => true
    case Review => true
    case Blocked => true
    case _ => false
  }

  /** The log says the record waits for one that exists and is still to be done. */
  ghost predicate Blocked(disk: Disk, id: string) {
    exists r :: r in disk.log.UnwrapOr([]) && r.edge.from == id && r.edge.kind == BlockedBy
                && ReadId(disk, r.edge.to).Success? && Unfinished(ReadId(disk, r.edge.to).value.content)
  }

  /** Someone holds the work item, and not until now or earlier. */
  predicate Claimed(c: Content, now: Timestamp) {
    match c.body
    case TaskBody(_, _, _, _, Some(claim)) => now < claim.claimExpiresAt
    case SubtaskBody(_, _, _, _, Some(claim)) => now < claim.claimExpiresAt
    case BugBody(_, _, _, _, _, Some(claim)) => now < claim.claimExpiresAt
    case _ => false
  }

  /** Ready, said about the stored records and the relation log alone: to be done, waiting for nothing, held by no one
      unless that is asked for, and of the kinds, owners and scopes asked for. */
  ghost predicate IsReady(disk: Disk, q: ReadyQuery, now: Timestamp, id: string) {
    ReadId(disk, id).Success? &&
    var c := ReadId(disk, id).value.content;
    && Unfinished(c) && !Blocked(disk, id) && (Claimed(c, now) ==> q.includeClaimed)
    && (forall kinds :: q.kinds == Some(kinds) && kinds != [] ==> c.kind in kinds)
    && (forall owners :: q.owners == Some(owners) && owners != [] ==> c.owner.Some? && c.owner.value in owners)
    && (forall scopes :: q.scopes == Some(scopes) && scopes != [] ==>
          c.owningScope.Some? && c.owningScope.value in scopes)
  }

  lemma RowClaimedIsClaimed(t: Tables, disk: Disk, id: string, now: Timestamp)
    requires Mirrors(t, disk) && ReadId(disk, id).Success?
    ensures RowClaimed(t, id, now) <==> Claimed(ReadId(disk, id).value.content, now)
  {
    hide ChildRowsOf, LastRow, RowsMirror, LogMirror;
    assert Lookup(t.children, (id, ClaimKey)) == ChildImage(disk, id, ClaimKey);
    ChildRowsAre(ReadId(disk, id).value.content, ClaimKey);
  }

  lemma RowIsRecord(t: Tables, disk: Disk, id: string)
    requires Mirrors(t, disk)
    ensures id in t.records <==> ReadId(disk, id).Success?
    ensures id in t.records ==> t.records[id] == RowOf(ReadId(disk, id).value, RecordPath(id), disk.files[id].mtime)
  {
    hide ChildrenMirror, LogMirror, RowOf;
    assert Lookup(t.records, id) == RowImage(disk, id);
  }

  lemma LoggedIsRow(t: Tables, disk: Disk, e: Edge)
    requires Mirrors(t, disk) && e.kind == BlockedBy
    ensures e in t.relations <==> exists r :: r in disk.log.value && r.edge == e
  {
    hide RowsMirror, ChildrenMirror;
    assert Lookup(t.relations, e) == FirstMeta(disk.log.value, e);
    FirstMetaIn(disk.log.value, e);
  }

  lemma RowBlockedIsBlocked(t: Tables, disk: Disk, id: string)
    requires Mirrors(t, disk)
    ensures RowBlocked(t, id) <==> Blocked(disk, id)
  {
    hide RowsMirror, ChildrenMirror, LogMirror, Finished, Unfinished, RowOf;
    if RowBlocked(t, id) {
      var e :| e in t.relations && e.from == id && e.kind == BlockedBy
               && e.to in t.records && !Finished(t.records[e.to].status);
      LoggedIsRow(t, disk, e);
      RowStatus(t, disk, e.to);
    }
    if Blocked(disk, id) {
      var r :| r in disk.log.value && r.edge.from == id && r.edge.kind == BlockedBy
               && ReadId(disk, r.edge.to).Success? && Unfinished(ReadId(disk, r.edge.to).value.content);
      LoggedIsRow(t, disk, r.edge);
      RowStatus(t, disk, r.edge.to);
    }
  }

  lemma RowStatus(t: Tables, disk: Disk, id: string)
    requires Mirrors(t, disk)
    ensures id in t.records <==> ReadId(disk, id).Success?
    ensures id in t.records ==> (Finished(t.records[id].status) <==> !Unfinished(ReadId(disk, id).value.content))
  {
    hide Mirrors;
    RowIsRecord(t, disk, id);
  }

  lemma PassesIs<T>(filter: Option<seq<T>>)
    ensures forall x :: Passes(filter, x) <==> forall xs :: filter == Some(xs) && xs != [] ==> x in xs
  {
  }

  lemma PassesColumnIs<T>(filter: Option<seq<T>>)
    ensures forall x :: PassesColumn(filter, x) <==>
              forall xs :: filter == Some(xs) && xs != [] ==> x.Some? && x.value in xs
  {
  }

  /** Over mirrored tables the query answers from the stored records and the log alone. */
  lemma ReadyRowsAreReady(t: Tables, disk: Disk, q: ReadyQuery, now: Timestamp, id: string)
    requires Mirrors(t, disk)
    ensures id in ReadyRows(t, q, now) <==> IsReady(disk, q, now, id)
  {
    hide Mirrors, Finished, Unfinished, RowBlocked, Blocked, RowClaimed, Claimed, Passes, PassesColumn;
    RowIsRecord(t, disk, id);
    RowStatus(t, disk, id);
    PassesIs(q.kinds);
    PassesColumnIs(q.owners);
    PassesColumnIs(q.scopes);
    RowBlockedIsBlocked(t, disk, id);
    if ReadId(disk, id).Success? {
      RowClaimedIsClaimed(t, disk, id, now);
    }
  }

  /** So a refresh that is told everything and a rebuild give the same answer at the same time. */
  lemma ReadySurvivesRefresh(t: Tables, before: Disk, after: Disk, changed: seq<Path>, removed: seq<Path>, u: Tables,
                             order: seq<string>, v: Tables, q: ReadyQuery, now: Timestamp)
    requires LaidOut(before) && LaidOut(after) && Consistent(t) && Mirrors(t, before)
    requires Leaves(t, after, changed, removed, u) && Told(before, after, changed, removed)
    requires AllParsed(after) && RebuiltIn(after, order, v)
    ensures ReadyRows(u, q, now) == ReadyRows(v, q, now)
  {
    hide Mirrors, IsReady, ReadyRows, Told, LaidOut, Consistent, Refreshed, Rebuilt, Enumerates, EdgesMirror;
    RefreshIsExact(t, before, after, changed, removed, u);
    RebuiltMirrors(after, order);
    forall id
      ensures id in ReadyRows(u, q, now) <==> id in ReadyRows(v, q, now)
    {
      ReadyRowsAreReady(u, after, q, now, id);
      ReadyRowsAreReady(v, after, q, now, id);
    }
  }

  // --- walks -------------------------------------------------------------------------------------------------------

  /** Two tables with the same `blocked-by` edges. */
  ghost predicate SameBlocking(a: W.Graph, b: W.Graph) {
    && a.dir == b.dir && a.dir != W.Both && a.root == b.root
    && forall e: Edge :: e.kind == BlockedBy ==> (e in a.rel <==> e in b.rel)
  }

  lemma CrossesBoth(a: W.Graph, b: W.Graph, e: Edge, v: string)
    requires SameBlocking(a, b) && W.Leaves(a.dir, e, v)
    ensures e in a.rel <==> e in b.rel
  {
  }

  lemma OneFurther(a: W.Graph, b: W.Graph, n: nat)
    requires SameBlocking(a, b) && W.Within(a, n) <= W.Within(b, n)
    ensures W.Within(a, n + 1) <= W.Within(b, n + 1)
  {
    hide W.Within, W.Leaves, W.Next;
    W.WithinGrows(b, n, n + 1);
    var further := W.Within(a, n + 1);
    forall v | v in further
      ensures v in W.Within(b, n + 1)
    {
      if v !in W.Within(a, n) {
        var e, u := W.StepBack(a, n, v);
        CrossesBoth(a, b, e, u);
        W.StepIsWithin(b, n, u, e);
      }
    }
  }

  lemma {:induction false} WithinBoth(a: W.Graph, b: W.Graph, n: nat)
    requires SameBlocking(a, b)
    ensures W.Within(a, n) <= W.Within(b, n)
  {
    hide W.Within;
    if n == 0 {
      W.WithinNothing(a);
      W.WithinNothing(b);
    } else {
      WithinBoth(a, b, n - 1);
      OneFurther(a, b, n - 1);
    }
  }

  lemma SameWithin(a: W.Graph, b: W.Graph, n: nat)
    requires SameBlocking(a, b)
    ensures W.Within(a, n) == W.Within(b, n)
  {
    hide W.Within;
    WithinBoth(a, b, n);
    WithinBoth(b, a, n);
  }

  lemma SameTouched(a: W.Graph, b: W.Graph, e: Edge, n: nat)
    requires SameBlocking(a, b)
    ensures W.Touched(a, e, n) <==> W.Touched(b, e, n)
  {
    SameWithin(a, b, n);
  }

  lemma SameWalks(a: W.Graph, b: W.Graph, maxDepth: nat, out: seq<W.DepEdge>)
    requires SameBlocking(a, b) && W.ExactWalk(a, maxDepth, out)
    ensures W.ExactWalk(b, maxDepth, out)
  {
    hide W.Touched, SameBlocking;
    forall e, n {
      SameTouched(a, b, e, n);
    }
  }

  /** Tables that hold the edges of one disk hold the same edges. */
  lemma SameEdges(t: Tables, u: Tables, disk: Disk)
    requires EdgesMirror(t, disk) && EdgesMirror(u, disk)
    ensures t.relations.Keys == u.relations.Keys
  {
    hide Implied, FirstMeta;
    assert forall e :: e in t.relations.Keys <==> e in u.relations.Keys;
  }

  /** Upstream and downstream walks are the same over any two tables that mirror one disk, and walks both ways are if
      the tables also hold the edges its records imply. */
  lemma WalkSurvivesRefresh(t: Tables, u: Tables, disk: Disk, root: string, dir: W.Direction, maxDepth: nat,
                            out: seq<W.DepEdge>)
    requires Mirrors(t, disk) && Mirrors(u, disk)
    requires dir == W.Both ==> EdgesMirror(t, disk) && EdgesMirror(u, disk)
    ensures W.ExactWalk(W.Graph(t.relations.Keys, dir, root), maxDepth, out) <==>
            W.ExactWalk(W.Graph(u.relations.Keys, dir, root), maxDepth, out)
  {
    hide Mirrors, EdgesMirror, W.ExactWalk;
    if dir == W.Both {
      SameEdges(t, u, disk);
    } else {
      var a, b := W.Graph(t.relations.Keys, dir, root), W.Graph(u.relations.Keys, dir, root);
      forall e: Edge | e.kind == BlockedBy
        ensures e in a.rel <==> e in b.rel
      {
        LoggedIsRow(t, disk, e);
        LoggedIsRow(u, disk, e);
      }
      if W.ExactWalk(a, maxDepth, out) {
        SameWalks(a, b, maxDepth, out);
      }
      if W.ExactWalk(b, maxDepth, out) {
        SameWalks(b, a, maxDepth, out);
      }
    }
  }

  // --- what a walk finds next to a record --------------------------------------------------------------------------

  /** The edge is logged, or some record implies it. */
  ghost predicate OnDisk(disk: Disk, e: Edge) {
    Implied(disk, e) || (exists r :: r in disk.log.UnwrapOr([]) && r.edge == e)
  }

  lemma RowIsOnDisk(t: Tables, disk: Disk, e: Edge)
    requires EdgesMirror(t, disk)
    ensures e in t.relations <==> OnDisk(disk, e)
  {
    hide Implied;
    FirstMetaIn(disk.log.value, e);
  }

  /** At depth one a walk lists the edges of its root on disk: upstream those to what it is blocked by, downstream those
      from what is blocked by it, both ways those of the four kinds at either end. */
  lemma FirstStep(t: Tables, disk: Disk, root: string, dir: W.Direction, maxDepth: nat, out: seq<W.DepEdge>, e: Edge)
    requires EdgesMirror(t, disk) && maxDepth >= 1
    requires W.ExactWalk(W.Graph(t.relations.Keys, dir, root), maxDepth, out)
    ensures W.DepEdge(e, 1) in out <==>
            OnDisk(disk, e)
            && match dir
               case Upstream => e.from == root && e.kind == BlockedBy
               case Downstream => e.to == root && e.kind == BlockedBy
               case Both =>
                 (e.from == root || e.to == root)
                 && (e.kind == BlockedBy || e.kind == Blocks || e.kind == ParentOf || e.kind == ChildOf)
  {
    var g := W.Graph(t.relations.Keys, dir, root);
    RowIsOnDisk(t, disk, e);
    W.ListedByEnds(g, maxDepth, out, e, 1);
    W.WithinNothing(g);
    hide EdgesMirror, OnDisk, W.ExactWalk, W.Within;
    assert (exists v :: v in W.Ends(dir, e) && v in W.Within(g, 1 - 1)) <==> root in W.Ends(dir, e);
  }

  /** A walk both ways finds a record's parent, by the edges both of them lead to. */
  lemma ParentIsFound(t: Tables, disk: Disk, root: string, parent: string, maxDepth: nat, out: seq<W.DepEdge>)
    requires EdgesMirror(t, disk) && LaidOut(disk) && maxDepth >= 1
    requires W.ExactWalk(W.Graph(t.relations.Keys, W.Both, root), maxDepth, out)
    requires ReadId(disk, root).Success? && ParentIdOf(ReadId(disk, root).value.content.body) == Some(parent)
    ensures W.DepEdge(Edge(root, parent, ChildOf), 1) in out && W.DepEdge(Edge(parent, root, ParentOf), 1) in out
  {
    var r := ReadId(disk, root).value;
    RelationsForAre(r, Edge(root, parent, ChildOf));
    RelationsForAre(r, Edge(parent, root, ParentOf));
    hide RelationsFor, FirstMeta, EdgesMirror, W.ExactWalk;
    assert Implied(disk, Edge(root, parent, ChildOf)) && Implied(disk, Edge(parent, root, ParentOf));
    FirstStep(t, disk, root, W.Both, maxDepth, out, Edge(root, parent, ChildOf));
    FirstStep(t, disk, root, W.Both, maxDepth, out, Edge(parent, root, ParentOf));
  }

  /** A walk one step upstream finds what keeps a record from being ready. */
  lemma BlockersAreFound(t: Tables, disk: Disk, root: string, out: seq<W.DepEdge>)
    requires EdgesMirror(t, disk) && W.ExactWalk(W.Graph(t.relations.Keys, W.Upstream, root), 1, out)
    ensures Blocked(disk, root) <==>
            exists x :: x in out && ReadId(disk, x.edge.to).Success?
                        && Unfinished(ReadId(disk, x.edge.to).value.content)
  {
    hide EdgesMirror, Unfinished, ReadId, OnDisk;
    forall x | x in out
      ensures x.depth == 1 && x.edge.from == root && x.edge.kind == BlockedBy
              && exists r :: r in disk.log.UnwrapOr([]) && r.edge == x.edge
    {
      W.ExactWalkLists(W.Graph(t.relations.Keys, W.Upstream, root), 1, out, x.edge, x.depth);
      FirstStep(t, disk, root, W.Upstream, 1, out, x.edge);
      BlockingIsLogged(disk, x.edge);
    }
    if Blocked(disk, root) {
      var r :| r in disk.log.UnwrapOr([]) && r.edge.from == root && r.edge.kind == BlockedBy
               && ReadId(disk, r.edge.to).Success? && Unfinished(ReadId(disk, r.edge.to).value.content);
      BlockingIsLogged(disk, r.edge);
      FirstStep(t, disk, root, W.Upstream, 1, out, r.edge);
    }
  }

  lemma BlockingIsLogged(disk: Disk, e: Edge)
    requires e.kind == BlockedBy
    ensures OnDisk(disk, e) <==> exists r :: r in disk.log.UnwrapOr([]) && r.edge == e
  {
    if Implied(disk, e) {
      var id :| id in disk.files && ReadId(disk, id).Success?
                && FirstMeta(RelationsFor(ReadId(disk, id).value), e).Some?;
      RelationsForStructural(ReadId(disk, id).value, e);
      assert false;
    }
  }
}
