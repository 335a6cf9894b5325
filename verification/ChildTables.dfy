/** What the six child tables and the implied edges say about a record (crates/ft-index/src/index.rs). */
module ChildTables {
  import opened Wrappers
  import opened Records
  import opened Index
  import opened Refresh

  lemma {:induction false} LastRowConcat(a: ChildRows, b: ChildRows, k: ChildKey)
    ensures LastRow(a + b, k) == if LastRow(b, k).Some? then LastRow(b, k) else LastRow(a, k)
  {
    if b == [] {
      assert a + b == a;
    } else {
      LastRowConcat(a, b[..|b| - 1], k);
      assert (a + b)[..|a + b| - 1] == a + b[..|b| - 1];
    }
  }

  lemma {:induction false} NoSuchRow(rows: ChildRows, k: ChildKey)
    requires forall x :: x in rows ==> x.0 != k
    ensures LastRow(rows, k) == None
  {
    if rows != [] {
      NoSuchRow(rows[..|rows| - 1], k);
    }
  }

  /** A plain row is there exactly if some insert had its key. */
  lemma {:induction false} PresentRow(rows: ChildRows, k: ChildKey)
    requires forall x :: x in rows ==> x.1 == Present
    ensures LastRow(rows, k) == if exists x :: x in rows && x.0 == k then Some(Present) else None
  {
    if rows != [] {
      PresentRow(rows[..|rows| - 1], k);
      assert rows == rows[..|rows| - 1] + [rows[|rows| - 1]];
    }
  }

  /** The last criterion with the local id. */
  function LastCriterion(acs: seq<AcceptanceCriterion>, id: string): Option<AcceptanceCriterion> {
    if acs == [] then None
    else if acs[|acs| - 1].id == id then Some(acs[|acs| - 1])
    else LastCriterion(acs[..|acs| - 1], id)
  }

  function LastEvidence(evs: seq<Evidence>, id: string): Option<Evidence> {
    if evs == [] then None
    else if evs[|evs| - 1].id == id then Some(evs[|evs| - 1])
    else LastEvidence(evs[..|evs| - 1], id)
  }

  lemma {:induction false} CriterionRowIs(acs: seq<AcceptanceCriterion>, id: string)
    ensures LastRow(CriterionRows(acs), CriterionKey(id)) ==
            (match LastCriterion(acs, id) case None => None case Some(ac) => Some(CriterionRow(ac)))
  {
    if acs != [] {
      CriterionRowIs(acs[..|acs| - 1], id);
      assert CriterionRows(acs)[..|acs| - 1] == CriterionRows(acs[..|acs| - 1]);
    }
  }

  lemma {:induction false} EvidenceRowIs(evs: seq<Evidence>, id: string)
    ensures LastRow(EvidenceRows(evs), EvidenceKey(id)) ==
            (match LastEvidence(evs, id) case None => None case Some(ev) => Some(EvidenceRow(ev)))
  {
    if evs != [] {
      EvidenceRowIs(evs[..|evs| - 1], id);
      assert EvidenceRows(evs)[..|evs| - 1] == EvidenceRows(evs[..|evs| - 1]);
    }
  }

  lemma LabelRowIs(labels: seq<Label>, key: string, value: string)
    ensures LastRow(LabelRows(labels), LabelKey(key, value))
         == if Label(key, value) in labels then Some(Present) else None
  {
    var rows := LabelRows(labels);
    PresentRow(rows, LabelKey(key, value));
    if Label(key, value) in labels {
      var i :| 0 <= i < |labels| && labels[i] == Label(key, value);
      assert rows[i] in rows;
    }
  }

  lemma ScopeRowIs(scopes: seq<string>, scope: string)
    ensures LastRow(ScopeRows(scopes), ScopeKey(scope)) == if scope in scopes then Some(Present) else None
  {
    var rows := ScopeRows(scopes);
    PresentRow(rows, ScopeKey(scope));
    if scope in scopes {
      var i :| 0 <= i < |scopes| && scopes[i] == scope;
      assert rows[i] in rows;
    }
  }

  lemma GlobRowIs(globs: seq<string>, glob: string)
    ensures LastRow(GlobRows(globs), GlobKey(glob)) == if glob in globs then Some(Present) else None
  {
    var rows := GlobRows(globs);
    PresentRow(rows, GlobKey(glob));
    if glob in globs {
      var i :| 0 <= i < |globs| && globs[i] == glob;
      assert rows[i] in rows;
    }
  }

  /** The part of the inserts that a key belongs to. */
  function PartOf(c: Content, k: ChildKey): ChildRows {
    match k
    case LabelKey(_, _) => LabelRows(c.labels)
    case ScopeKey(_) => ScopeRows(c.affectedScopes)
    case GlobKey(_) => GlobRows(c.appliesTo)
    case ClaimKey => ClaimRows(ClaimOf(c.body))
    case CriterionKey(_) => CriterionRows(CriteriaOf(c.body))
    case EvidenceKey(_) => EvidenceRows(EvidenceOf(c.body))
  }

  lemma OtherPartsSilent(c: Content, k: ChildKey)
    ensures !k.LabelKey? ==> LastRow(LabelRows(c.labels), k) == None
    ensures !k.ScopeKey? ==> LastRow(ScopeRows(c.affectedScopes), k) == None
    ensures !k.GlobKey? ==> LastRow(GlobRows(c.appliesTo), k) == None
    ensures !k.ClaimKey? ==> LastRow(ClaimRows(ClaimOf(c.body)), k) == None
    ensures !k.CriterionKey? ==> LastRow(CriterionRows(CriteriaOf(c.body)), k) == None
    ensures !k.EvidenceKey? ==> LastRow(EvidenceRows(EvidenceOf(c.body)), k) == None
  {
    hide LastRow, ClaimOf, CriteriaOf, EvidenceOf;
    if !k.LabelKey? { NoSuchRow(LabelRows(c.labels), k); }
    if !k.ScopeKey? { NoSuchRow(ScopeRows(c.affectedScopes), k); }
    if !k.GlobKey? { NoSuchRow(GlobRows(c.appliesTo), k); }
    if !k.ClaimKey? { NoSuchRow(ClaimRows(ClaimOf(c.body)), k); }
    if !k.CriterionKey? { NoSuchRow(CriterionRows(CriteriaOf(c.body)), k); }
    if !k.EvidenceKey? { NoSuchRow(EvidenceRows(EvidenceOf(c.body)), k); }
  }

  /** No insert disturbs the rows of another table. */
  lemma OwnPartDecides(c: Content, k: ChildKey)
    ensures LastRow(ChildRowsOf(c), k) == LastRow(PartOf(c, k), k)
  {
    hide LastRow, LabelRows, ScopeRows, GlobRows, ClaimRows, CriterionRows, EvidenceRows;
    var labels, scopes, globs := LabelRows(c.labels), ScopeRows(c.affectedScopes), GlobRows(c.appliesTo);
    var claims, criteria := ClaimRows(ClaimOf(c.body)), CriterionRows(CriteriaOf(c.body));
    OtherPartsSilent(c, k);
    LastRowConcat(labels, scopes, k);
    LastRowConcat(labels + scopes, globs, k);
    LastRowConcat(labels + scopes + globs, claims, k);
    LastRowConcat(labels + scopes + globs + claims, criteria, k);
    LastRowConcat(labels + scopes + globs + claims + criteria, EvidenceRows(EvidenceOf(c.body)), k);
  }

  /** Work items below an epic have criteria, evidence and perhaps a claim; no other record has any of them. */
  lemma PartsOfBody(b: Body)
    ensures match b
            case TaskBody(_, _, acs, evs, claim) => (CriteriaOf(b), EvidenceOf(b), ClaimOf(b)) == (acs, evs, claim)
            case SubtaskBody(_, _, acs, evs, claim) => (CriteriaOf(b), EvidenceOf(b), ClaimOf(b)) == (acs, evs, claim)
            case BugBody(_, _, _, acs, evs, claim) => (CriteriaOf(b), EvidenceOf(b), ClaimOf(b)) == (acs, evs, claim)
            case _ => CriteriaOf(b) == [] && EvidenceOf(b) == [] && ClaimOf(b) == None
  {
  }

  /** The child tables hold the record's labels, scopes, globs, claim, criteria and evidence, and nothing else. */
  lemma ChildRowsAre(c: Content, k: ChildKey)
    ensures LastRow(ChildRowsOf(c), k) ==
            (match k
             case LabelKey(key, value) => if Label(key, value) in c.labels then Some(Present) else None
             case ScopeKey(scope) => if scope in c.affectedScopes then Some(Present) else None
             case GlobKey(glob) => if glob in c.appliesTo then Some(Present) else None
             case ClaimKey => (match ClaimOf(c.body) case None => None case Some(claim) => Some(ClaimRow(claim)))
             case CriterionKey(id) =>
               (match LastCriterion(CriteriaOf(c.body), id) case None => None case Some(ac) => Some(CriterionRow(ac)))
             case EvidenceKey(id) =>
               (match LastEvidence(EvidenceOf(c.body), id) case None => None case Some(ev) => Some(EvidenceRow(ev))))
  {
    hide ChildRowsOf, LabelRows, ScopeRows, GlobRows, CriterionRows, EvidenceRows, ClaimOf, CriteriaOf, EvidenceOf;
    OwnPartDecides(c, k);
    match k
    case LabelKey(key, value) => LabelRowIs(c.labels, key, value);
    case ScopeKey(scope) => ScopeRowIs(c.affectedScopes, scope);
    case GlobKey(glob) => GlobRowIs(c.appliesTo, glob);
    case ClaimKey =>
    case CriterionKey(id) => CriterionRowIs(CriteriaOf(c.body), id);
    case EvidenceKey(id) => EvidenceRowIs(EvidenceOf(c.body), id);
  }

  // --- implied edges -----------------------------------------------------------------------------------------------

  lemma {:induction false} EpicEdgesAre(c: Content, children: seq<string>, e: Edge)
    ensures (exists r :: r in EpicEdges(c, children) && r.edge == e) <==>
            (e.kind == ParentOf && e.from == c.id && e.to in children)
            || (e.kind == ChildOf && e.to == c.id && e.from in children)
  {
    if children != [] {
      EpicEdgesAre(c, children[1..], e);
      var pair := [EdgeFrom(c, Edge(c.id, children[0], ParentOf)), EdgeFrom(c, Edge(children[0], c.id, ChildOf))];
      assert EpicEdges(c, children) == pair + EpicEdges(c, children[1..]);
      assert pair[0] in EpicEdges(c, children) && pair[1] in EpicEdges(c, children);
      assert forall r :: r in EpicEdges(c, children) <==> r in pair || r in EpicEdges(c, children[1..]);
    }
  }

  lemma {:induction false} EpicEdgesMeta(c: Content, children: seq<string>)
    ensures forall r :: r in EpicEdges(c, children) ==> r.createdAt == c.createdAt && r.createdBy == c.createdBy
  {
    if children != [] {
      EpicEdgesMeta(c, children[1..]);
    }
  }

  lemma {:induction false} OneMeta(log: seq<Relation>, e: Edge, m: Meta)
    requires forall r :: r in log ==> r.createdAt == m.createdAt && r.createdBy == m.createdBy
    ensures FirstMeta(log, e).Some? ==> FirstMeta(log, e) == Some(m)
  {
    if log != [] {
      OneMeta(log[1..], e, m);
    }
  }

  /** A record implies the edges between itself and its parent, and an epic those between itself and its children, made
      when and by whom the record was. */
  lemma RelationsForAre(r: RecordState, e: Edge)
    ensures FirstMeta(RelationsFor(r), e).Some? <==>
            var c := r.content;
            || (e.kind == ChildOf && e.from == c.id && ParentIdOf(c.body) == Some(e.to))
            || (e.kind == ParentOf && e.to == c.id && ParentIdOf(c.body) == Some(e.from))
            || (e.kind == ParentOf && e.from == c.id && c.body.EpicBody? && e.to in c.body.childIds)
            || (e.kind == ChildOf && e.to == c.id && c.body.EpicBody? && e.from in c.body.childIds)
    ensures FirstMeta(RelationsFor(r), e).Some? ==>
              FirstMeta(RelationsFor(r), e) == Some(Meta(r.content.createdAt, r.content.createdBy))
  {
    hide FirstMeta;
    FirstMetaIn(RelationsFor(r), e);
    RelationsMeta(r);
    OneMeta(RelationsFor(r), e, Meta(r.content.createdAt, r.content.createdBy));
    match r.content.body
    case EpicBody(_, children) => EpicEdgesAre(r.content, children, e);
    case TaskBody(_, Some(p), _, _, _) => PairHas(r.content, p, e);
    case SubtaskBody(_, p, _, _, _) => PairHas(r.content, p, e);
    case _ =>
  }

  lemma RelationsMeta(r: RecordState)
    ensures forall x :: x in RelationsFor(r) ==>
              x.createdAt == r.content.createdAt && x.createdBy == r.content.createdBy
  {
    match r.content.body
    case EpicBody(_, children) => EpicEdgesMeta(r.content, children);
    case _ =>
  }

  /** Some stored record implies the edge, and was made then and by that identity. */
  ghost predicate ImpliedWith(disk: Disk, e: Edge, m: Meta) {
    exists id :: id in disk.files && ReadId(disk, id).Success?
                 && FirstMeta(RelationsFor(ReadId(disk, id).value), e) == Some(m)
  }

  lemma {:induction false} ImpliedMeta(disk: Disk, order: seq<string>, e: Edge)
    requires AllFound(disk, order) && (forall id :: id in order ==> id in disk.files)
    ensures e in ImpliedAll(map[], disk, order) ==> ImpliedWith(disk, e, ImpliedAll(map[], disk, order)[e])
  {
    hide RelationsFor, ReadId, FirstMeta;
    if order != [] {
      var n := |order| - 1;
      ImpliedMeta(disk, order[..n], e);
      assert order == order[..n] + [order[n]];
      LookupAddAll(ImpliedAll(map[], disk, order[..n]), RelationsFor(ReadId(disk, order[n]).value), e);
    }
  }

  /** After a rebuild each relation is as a record that implies it has it, and as the log has it first if none does. */
  lemma RebuiltMeta(disk: Disk, order: seq<string>, e: Edge)
    requires AllFound(disk, order) && disk.log.Some? && Enumerates(order, disk)
    ensures e in Rebuilt(disk, order).relations ==>
              if Implied(disk, e) then ImpliedWith(disk, e, Rebuilt(disk, order).relations[e])
              else FirstMeta(disk.log.value, e) == Some(Rebuilt(disk, order).relations[e])
  {
    hide RelationsFor, ReadId, FirstMeta, IndexedAll, ImpliedAll, AddAll, Structural;
    LookupImpliedAll(disk, order, e);
    ImpliedMeta(disk, order, e);
    LookupAddAll(ImpliedAll(map[], disk, order), disk.log.value, e);
  }

  lemma PairHas(c: Content, p: string, e: Edge)
    ensures var pair := [EdgeFrom(c, Edge(c.id, p, ChildOf)), EdgeFrom(c, Edge(p, c.id, ParentOf))];
            (exists r :: r in pair && r.edge == e) <==> e == Edge(c.id, p, ChildOf) || e == Edge(p, c.id, ParentOf)
  {
    var pair := [EdgeFrom(c, Edge(c.id, p, ChildOf)), EdgeFrom(c, Edge(p, c.id, ParentOf))];
    assert pair[0] in pair && pair[1] in pair;
  }
}
