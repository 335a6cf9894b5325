/** The edges records imply, after a refresh (crates/ft-index/src/index.rs). */
module Structure {
  import opened Wrappers
  import opened Records
  import opened Index
  import opened Refresh

  ghost predicate Implies(disk: Disk, p: Path, e: Edge) {
    ReadPath(disk, p).Success? && FirstMeta(RelationsFor(ReadPath(disk, p).value), e).Some?
  }

  /** Some reread record implies the edge, and the one it starts from is not reread later. */
  ghost predicate Reimplied(disk: Disk, changed: seq<Path>, e: Edge) {
    exists i :: 0 <= i < |changed| && ImpliedLast(disk, changed, i, e)
  }

  ghost predicate ImpliedLast(disk: Disk, changed: seq<Path>, i: nat, e: Edge)
    requires i < |changed|
  {
    Implies(disk, changed[i], e) && !Wiped(changed[i + 1..], e)
  }

  ghost predicate Logged(disk: Disk, e: Edge) {
    disk.log.Some? && FirstMeta(disk.log.value, e).Some?
  }

  lemma ReimpliedSplits(disk: Disk, a: seq<Path>, p: Path, e: Edge)
    ensures Reimplied(disk, a + [p], e) <==>
            Implies(disk, p, e) || (Reimplied(disk, a, e) && IdFromPath(p) != Some(e.from))
  {
    hide Wiped, Implies;
    var all := a + [p];
    forall i | 0 <= i < |a|
      ensures ImpliedLast(disk, all, i, e) <==> ImpliedLast(disk, a, i, e) && IdFromPath(p) != Some(e.from)
    {
      assert all[i] == a[i] && all[i + 1..] == a[i + 1..] + [p];
      WipedSplits(a[i + 1..], p, e);
    }
    NothingWiped(all[|a| + 1..], e);
    assert ImpliedLast(disk, all, |a|, e) <==> Implies(disk, p, e);
    hide ImpliedLast;
    if Reimplied(disk, all, e) {
      var i :| 0 <= i < |all| && ImpliedLast(disk, all, i, e);
      assert i < |a| ==> ImpliedLast(disk, a, i, e);
    }
    if Reimplied(disk, a, e) {
      var i :| 0 <= i < |a| && ImpliedLast(disk, a, i, e);
    }
  }

  /** The whole relation table after the changed paths are reread. */
  lemma {:induction false} EdgesAfterChanged(t: Tables, disk: Disk, changed: seq<Path>, e: Edge)
    requires AllReadable(disk, changed) && LaidOut(disk)
    ensures e in AfterChanged(t, disk, changed).relations <==>
            Reimplied(disk, changed, e) || (e in t.relations && !Wiped(changed, e))
  {
    hide Reimplied, Wiped, WithRecord, RelationsFor, LaidOut, ReadPath;
    if changed == [] {
      NothingWiped(changed, e);
      NothingReimplied(disk, changed, e);
    } else {
      var n := |changed| - 1;
      var u := AfterChanged(t, disk, changed[..n]);
      EdgesAfterChanged(t, disk, changed[..n], e);
      assert changed == changed[..n] + [changed[n]];
      WipedSplits(changed[..n], changed[n], e);
      ReimpliedSplits(disk, changed[..n], changed[n], e);
      EdgesAfterReread(u, disk, changed[n], e);
    }
  }

  lemma NothingReimplied(disk: Disk, none: seq<Path>, e: Edge)
    requires none == []
    ensures !Reimplied(disk, none, e)
  {
  }

  lemma EdgesAfterReread(t: Tables, disk: Disk, p: Path, e: Edge)
    requires LaidOut(disk) && ReadPath(disk, p).Success?
    ensures e in Reread(t, disk, p).relations <==>
            Implies(disk, p, e) || (e in t.relations && IdFromPath(p) != Some(e.from))
  {
    hide RelationsFor, WithRecord;
    var r := ReadPath(disk, p).value;
    LookupAddAll(WithoutFrom(t.relations, r.content.id), RelationsFor(r), e);
  }

  /** The relation table after an incremental refresh, in one condition. */
  lemma EdgesAfterRefresh(t: Tables, before: Disk, after: Disk, changed: seq<Path>, removed: seq<Path>, e: Edge)
    requires Consistent(t) && LaidOut(after) && AllReadable(after, changed) && after.log.Some?
    requires EdgesMirror(t, before)
    ensures e in Refreshed(t, after, changed, removed).relations <==>
            Logged(after, e) || Reimplied(after, changed, e)
            || ((Implied(before, e) || Logged(before, e)) && !Wiped(changed, e))
  {
    hide Reimplied, Wiped, Implied, FirstMeta, AfterChanged, AfterRemoved, AddAll, LaidOut, AllReadable, Consistent;
    var u := AfterRemoved(t, removed);
    RowsAfterRemoved(t, removed, "", ClaimKey);
    EdgesAfterChanged(u, after, changed, e);
    LookupAddAll(AfterChanged(u, after, changed).relations, after.log.value, e);
  }

  /** An edge neither a record nor the log has any more, left behind because the record it starts from was not
      reread. */
  ghost predicate LeftBehind(before: Disk, after: Disk, changed: seq<Path>, e: Edge) {
    (Implied(before, e) || Logged(before, e)) && !Wiped(changed, e) && !Implied(after, e) && !Logged(after, e)
  }

  /** An edge some record implies, wiped with its starting record and not put back. */
  ghost predicate Lost(before: Disk, after: Disk, changed: seq<Path>, e: Edge) {
    Implied(after, e) && !Logged(after, e) && !Reimplied(after, changed, e)
    && (Implied(before, e) || Logged(before, e) ==> Wiped(changed, e))
  }

  /** An incremental refresh gets the set of edges right, of every kind, exactly when none is left behind and none is
      lost. */
  lemma IncrementEdgesExact(t: Tables, before: Disk, after: Disk, changed: seq<Path>, removed: seq<Path>)
    requires Consistent(t) && LaidOut(after) && AllReadable(after, changed) && after.log.Some?
    requires EdgesMirror(t, before)
    ensures EdgesMirror(Refreshed(t, after, changed, removed), after) <==>
            forall e :: !LeftBehind(before, after, changed, e) && !Lost(before, after, changed, e)
  {
    hide Refreshed, Wiped, Implied, FirstMeta, LaidOut, AllReadable, Consistent, Reimplied;
    var u := Refreshed(t, after, changed, removed);
    forall e
      ensures (e in u.relations <==> Implied(after, e) || Logged(after, e)) <==>
              !LeftBehind(before, after, changed, e) && !Lost(before, after, changed, e)
    {
      EdgesAfterRefresh(t, before, after, changed, removed, e);
      ReimpliedIsImplied(after, changed, e);
    }
  }

  /** On either side of the threshold: a refresh gets the set of edges right exactly when it rebuilds, or none is left
      behind and none is lost. */
  lemma RefreshedEdgesExact(t: Tables, before: Disk, after: Disk, changed: seq<Path>, removed: seq<Path>, u: Tables)
    requires Consistent(t) && LaidOut(after) && EdgesMirror(t, before) && Leaves(t, after, changed, removed, u)
    ensures EdgesMirror(u, after) <==>
            TooMany(changed, removed)
            || forall e :: !LeftBehind(before, after, changed, e) && !Lost(before, after, changed, e)
  {
    hide EdgesMirror, LeftBehind, Lost, Refreshed, RebuiltIn, LaidOut, Consistent, AllReadable, AllParsed;
    if TooMany(changed, removed) {
      TooManyMirrors(t, after, changed, removed, u);
    } else {
      IncrementEdgesExact(t, before, after, changed, removed);
    }
  }

  lemma ReimpliedIsImplied(disk: Disk, changed: seq<Path>, e: Edge)
    requires AllReadable(disk, changed)
    ensures Reimplied(disk, changed, e) ==> Implied(disk, e)
  {
    hide RelationsFor, FirstMeta, Wiped;
    if Reimplied(disk, changed, e) {
      var i :| 0 <= i < |changed| && ImpliedLast(disk, changed, i, e);
      assert changed[i] in changed;
      var id := IdFromPath(changed[i]).value;
      assert id in disk.files;
    }
  }

  /** A line taken out of the log stays in the table until the record it starts from is reread or all is rebuilt. */
  lemma UnlinkedEdgeStays(t: Tables, before: Disk, after: Disk, changed: seq<Path>, removed: seq<Path>, u: Tables,
                          e: Edge)
    requires Consistent(t) && LaidOut(after) && EdgesMirror(t, before) && Leaves(t, after, changed, removed, u)
    requires Logged(before, e) && !Logged(after, e) && !Structural(e)
    ensures e in u.relations <==> !TooMany(changed, removed) && !Wiped(changed, e)
  {
    hide Refreshed, RebuiltIn, Wiped, Implied, FirstMeta, LaidOut, Consistent, Reimplied, EdgesMirror, AllParsed,
         AllReadable, Structural;
    ImpliedIsStructural(after, e);
    if TooMany(changed, removed) {
      TooManyMirrors(t, after, changed, removed, u);
      EdgeIsMirrored(u, after, e);
    } else {
      EdgesAfterRefresh(t, before, after, changed, removed, e);
      ReimpliedIsImplied(after, changed, e);
    }
  }

  lemma EdgeIsMirrored(t: Tables, disk: Disk, e: Edge)
    requires EdgesMirror(t, disk)
    ensures e in t.relations <==> Implied(disk, e) || Logged(disk, e)
  {
    hide Implied, FirstMeta;
  }

  lemma ImpliedIsStructural(disk: Disk, e: Edge)
    ensures Implied(disk, e) ==> Structural(e)
  {
    hide RelationsFor, FirstMeta;
    if Implied(disk, e) {
      var id :| id in disk.files && ReadId(disk, id).Success?
                && FirstMeta(RelationsFor(ReadId(disk, id).value), e).Some?;
      RelationsForStructural(ReadId(disk, id).value, e);
    }
  }

  /** A record that was only touched: the report covers it. */
  lemma TouchIsCovered(disk: Disk, touched: string)
    requires AllParsed(disk)
    ensures Covers(disk, disk, [RecordPath(touched)], [])
  {
    var changed := [RecordPath(touched)];
    forall id
      ensures CoveredAt(disk, disk, changed, [], id)
    {
      assert changed[..0] == [];
    }
  }

  /** Rereading a task loses its edges to its subtasks: only they imply them. */
  lemma SubtaskEdgeIsLost(t: Tables, disk: Disk, task: string, sub: string, u: Tables)
    requires Consistent(t) && LaidOut(disk) && Mirrors(t, disk) && EdgesMirror(t, disk) && task != sub
    requires task in disk.files && disk.files[task].parsed.value.content.body.TaskBody?
    requires sub in disk.files && disk.files[sub].parsed.value.content.body.SubtaskBody?
    requires disk.files[sub].parsed.value.content.body.parentTask == task
    requires !Logged(disk, Edge(task, sub, ParentOf))
    requires Leaves(t, disk, [RecordPath(task)], [], u)
    ensures Covers(disk, disk, [RecordPath(task)], [])
    ensures Edge(task, sub, ParentOf) in t.relations && Edge(task, sub, ParentOf) !in u.relations
  {
    hide Covers, Refreshed, FirstMeta, RebuiltIn;
    var e := Edge(task, sub, ParentOf);
    TouchIsCovered(disk, task);
    EdgesAfterRefresh(t, disk, disk, [RecordPath(task)], [], e);
    SubtaskImplies(disk, task, sub);
    TaskDoesNot(disk, task, sub);
  }

  lemma SubtaskImplies(disk: Disk, task: string, sub: string)
    requires LaidOut(disk) && ReadId(disk, sub).Success?
    requires ReadId(disk, sub).value.content.body.SubtaskBody?
    requires ReadId(disk, sub).value.content.body.parentTask == task
    ensures Implied(disk, Edge(task, sub, ParentOf))
  {
    var r := ReadId(disk, sub).value;
    FirstMetaIn(RelationsFor(r), Edge(task, sub, ParentOf));
    assert RelationsFor(r)[1].edge == Edge(task, sub, ParentOf);
  }

  lemma TaskDoesNot(disk: Disk, task: string, sub: string)
    requires LaidOut(disk) && task != sub && ReadId(disk, task).Success?
    requires ReadId(disk, task).value.content.body.TaskBody?
    ensures Wiped([RecordPath(task)], Edge(task, sub, ParentOf))
    ensures !Reimplied(disk, [RecordPath(task)], Edge(task, sub, ParentOf))
  {
    var e := Edge(task, sub, ParentOf);
    assert RecordPath(task) in [RecordPath(task)];
    FirstMetaIn(RelationsFor(ReadId(disk, task).value), e);
  }
}
