/** Which records a context pack for a task considers (crates/ft-prime/src/select.rs, `prime_for_task`). */
module Prime {
  import opened Wrappers
  import opened Records
  import opened Select
  import opened Index

  datatype PrimeError = TargetNotFound(id: string)

  function OtherEnd(e: Edge, id: string): string {
    if e.from == id then e.to else e.from
  }

  /** A relation of whatever kind leads from one to the other. */
  ghost predicate Related(relations: set<Edge>, task: string, id: string) {
    exists k: RelationKind :: Edge(task, id, k) in relations || Edge(id, task, k) in relations
  }

  lemma RelatedByRow(relations: set<Edge>, task: string, e: Edge)
    requires e in relations && (e.from == task || e.to == task)
    ensures Related(relations, task, OtherEnd(e, task))
  {
    assert e == Edge(task, e.to, e.kind) || e == Edge(e.from, task, e.kind);
  }

  lemma RowOfRelated(relations: set<Edge>, task: string, id: string) returns (e: Edge)
    requires Related(relations, task, id)
    ensures e in relations && (e.from == task || e.to == task) && OtherEnd(e, task) == id
  {
    var k: RelationKind :| Edge(task, id, k) in relations || Edge(id, task, k) in relations;
    e := if Edge(task, id, k) in relations then Edge(task, id, k) else Edge(id, task, k);
  }

  predicate SharesScope(a: Content, b: Content) {
    a.owningScope.Some? && b.owningScope == a.owningScope
  }

  /** The closest way a readable record is connected to the task. */
  ghost function BestProvenance(disk: Disk, relations: set<Edge>, task: string, id: string): Option<Provenance>
    requires ReadId(disk, task).Success?
  {
    if ReadId(disk, id).Failure? then None
    else if id == task then Some(Target)
    else if Related(relations, task, id) then Some(StructuralRelation)
    else if SharesScope(ReadId(disk, task).value.content, ReadId(disk, id).value.content) then Some(SameScope)
    else None
  }

  ghost predicate Lists(cs: seq<Candidate>, id: string) {
    exists c :: c in cs && c.record.id == id
  }

  /** Every candidate has its best provenance. */
  ghost predicate BestOnly(disk: Disk, relations: set<Edge>, task: string, opts: Options, cs: seq<Candidate>)
    requires ReadId(disk, task).Success?
  {
    forall c :: c in cs ==>
      BestProvenance(disk, relations, task, c.record.id) == Some(c.provenance)
      && c == CandidateOf(ReadId(disk, c.record.id).value.content, c.provenance, opts)
  }

  /** Exactly the connected records, each once, with its best provenance. */
  ghost predicate Gathered(disk: Disk, relations: set<Edge>, task: string, opts: Options, cs: seq<Candidate>)
    requires ReadId(disk, task).Success?
  {
    && DistinctIds(cs) && BestOnly(disk, relations, task, opts, cs)
    && forall id :: BestProvenance(disk, relations, task, id).Some? ==> Lists(cs, id)
  }

  /** The candidates found so far and their ids. */
  class Selection {
    var candidates: seq<Candidate>
    var seen: set<string>

    ghost predicate Valid()
      reads this
    {
      DistinctIds(candidates) && forall id :: id in seen <==> Lists(candidates, id)
    }

    constructor ()
      ensures Valid() && candidates == []
    {
      candidates, seen := [], {};
    }

    /** `push_candidate`: the first way a record is found is the one that counts. */
    method Push(c: Content, p: Provenance, opts: Options)
      requires Valid()
      modifies this
      ensures Valid() && seen == old(seen) + {c.id}
      ensures candidates == if c.id in old(seen) then old(candidates) else old(candidates) + [CandidateOf(c, p, opts)]
    {
      if c.id in seen {
        return;
      }
      seen := seen + {c.id};
      PushKeepsDistinct(candidates, CandidateOf(c, p, opts));
      candidates := candidates + [CandidateOf(c, p, opts)];
    }
  }

  lemma PushKeepsDistinct(cs: seq<Candidate>, c: Candidate)
    requires DistinctIds(cs) && !Lists(cs, c.record.id)
    ensures DistinctIds(cs + [c])
    ensures forall id :: Lists(cs + [c], id) <==> Lists(cs, id) || id == c.record.id
  {
    forall id
      ensures Lists(cs + [c], id) <==> Lists(cs, id) || id == c.record.id
    {
      assert forall x :: x in cs + [c] <==> x in cs || x == c;
    }
  }

  lemma BestOnlyPush(disk: Disk, relations: set<Edge>, task: string, opts: Options, cs: seq<Candidate>,
                     r: RecordState, p: Provenance)
    requires ReadId(disk, task).Success? && BestOnly(disk, relations, task, opts, cs)
    requires ReadId(disk, r.content.id) == Success(r)
    requires BestProvenance(disk, relations, task, r.content.id) == Some(p)
    ensures BestOnly(disk, relations, task, opts, cs + [CandidateOf(r.content, p, opts)])
  {
    hide BestProvenance, ReadId;
  }

  /** `Index::relations`: the rows that touch the record, in whatever order. */
  method RelationsOf(relations: set<Edge>, id: string) returns (rows: seq<Edge>)
    ensures forall e :: e in rows <==> e in relations && (e.from == id || e.to == id)
  {
    rows := [];
    var left := set e | e in relations && (e.from == id || e.to == id);
    while left != {}
      invariant forall e :: e in relations && (e.from == id || e.to == id) <==> e in left || e in rows
    {
      var e :| e in left;
      rows, left := rows + [e], left - {e};
    }
  }

  /** The records storage can read, in whatever order. */
  method ReadableIds(disk: Disk) returns (ids: seq<string>)
    ensures forall id :: id in ids <==> ReadId(disk, id).Success?
  {
    ids := [];
    var left := set id | id in disk.files && ReadId(disk, id).Success?;
    while left != {}
      invariant forall id :: ReadId(disk, id).Success? <==> id in left || id in ids
    {
      var id :| id in left;
      ids, left := ids + [id], left - {id};
    }
  }

  /** The direct relations. */
  method PushRelated(sel: Selection, disk: Disk, relations: set<Edge>, task: string, opts: Options)
    requires sel.Valid() && LaidOut(disk) && ReadId(disk, task).Success?
    requires task in sel.seen && BestOnly(disk, relations, task, opts, sel.candidates)
    modifies sel
    ensures sel.Valid() && BestOnly(disk, relations, task, opts, sel.candidates) && old(sel.seen) <= sel.seen
    ensures forall id :: Related(relations, task, id) && ReadId(disk, id).Success? ==> id in sel.seen
  {
    hide BestOnly, DistinctIds, Lists;
    var edges := RelationsOf(relations, task);
    for i := 0 to |edges|
      invariant sel.Valid() && BestOnly(disk, relations, task, opts, sel.candidates) && old(sel.seen) <= sel.seen
      invariant forall j :: 0 <= j < i && ReadId(disk, OtherEnd(edges[j], task)).Success? ==>
        OtherEnd(edges[j], task) in sel.seen
    {
      var other := OtherEnd(edges[i], task);
      var read := ReadId(disk, other);
      if read.Success? {
        if other !in sel.seen {
          assert edges[i] in edges;
          RelatedByRow(relations, task, edges[i]);
          BestOnlyPush(disk, relations, task, opts, sel.candidates, read.value, StructuralRelation);
        }
        sel.Push(read.value.content, StructuralRelation, opts);
      }
    }
    forall id | Related(relations, task, id) && ReadId(disk, id).Success?
      ensures id in sel.seen
    {
      var e := RowOfRelated(relations, task, id);
      var j :| 0 <= j < |edges| && edges[j] == e;
    }
  }

  /** The records of the same scope. */
  method PushSameScope(sel: Selection, disk: Disk, relations: set<Edge>, task: string, opts: Options)
    requires sel.Valid() && LaidOut(disk) && ReadId(disk, task).Success?
    requires task in sel.seen && BestOnly(disk, relations, task, opts, sel.candidates)
    requires forall id :: Related(relations, task, id) && ReadId(disk, id).Success? ==> id in sel.seen
    modifies sel
    ensures sel.Valid() && BestOnly(disk, relations, task, opts, sel.candidates) && old(sel.seen) <= sel.seen
    ensures forall id :: BestProvenance(disk, relations, task, id).Some? ==> id in sel.seen
  {
    hide BestOnly, DistinctIds, Lists;
    var target := ReadId(disk, task).value.content;
    if target.owningScope.None? {
      return;
    }
    var ids := ReadableIds(disk);
    for i := 0 to |ids|
      invariant sel.Valid() && BestOnly(disk, relations, task, opts, sel.candidates) && old(sel.seen) <= sel.seen
      invariant forall j :: 0 <= j < i && SharesScope(target, ReadId(disk, ids[j]).value.content) ==> ids[j] in sel.seen
    {
      var id := ids[i];
      if id == task {
        continue;
      }
      var r := ReadId(disk, id).value;
      if r.content.owningScope == target.owningScope {
        if id !in sel.seen {
          BestOnlyPush(disk, relations, task, opts, sel.candidates, r, SameScope);
        }
        sel.Push(r.content, SameScope, opts);
      }
    }
  }

  /** `prime_for_task`. */
  method PrimeForTask(disk: Disk, relations: set<Edge>, task: string, opts: Options)
    returns (res: Result<ContextPack, PrimeError>, ghost cs: seq<Candidate>)
    requires LaidOut(disk)
    ensures res.Success? <==> ReadId(disk, task).Success?
    ensures res.Success? ==> Gathered(disk, relations, task, opts, cs) && res.value == PackOf(cs, Some(task), opts)
    ensures res.Failure? ==> res.error == TargetNotFound(task)
  {
    hide DistinctIds, PackOf;
    cs := [];
    var target := ReadId(disk, task);
    if target.Failure? {
      return Failure(TargetNotFound(task)), [];
    }
    var sel := new Selection();
    assert BestOnly(disk, relations, task, opts, sel.candidates);
    BestOnlyPush(disk, relations, task, opts, sel.candidates, target.value, Target);
    sel.Push(target.value.content, Target, opts);
    PushRelated(sel, disk, relations, task, opts);
    PushSameScope(sel, disk, relations, task, opts);
    cs := sel.candidates;
    var pack := Pack(sel.candidates, Some(task), opts);
    return Success(pack), cs;
  }

  lemma GatheredMembers(disk: Disk, relations: set<Edge>, task: string, opts: Options,
                        a: seq<Candidate>, b: seq<Candidate>, c: Candidate)
    requires ReadId(disk, task).Success?
    requires Gathered(disk, relations, task, opts, a) && Gathered(disk, relations, task, opts, b) && c in a
    ensures c in b
  {
    hide BestProvenance, DistinctIds, CandidateOf;
    assert Lists(b, c.record.id);
    var d :| d in b && d.record.id == c.record.id;
  }

  /** The pack for a task is the same in whatever order the relations and records are read. */
  lemma GatheredPack(disk: Disk, relations: set<Edge>, task: string, opts: Options,
                     a: seq<Candidate>, b: seq<Candidate>)
    requires ReadId(disk, task).Success?
    requires Gathered(disk, relations, task, opts, a) && Gathered(disk, relations, task, opts, b)
    ensures PackOf(a, Some(task), opts) == PackOf(b, Some(task), opts)
  {
    forall c: Candidate
      ensures multiset(a)[c] == multiset(b)[c]
    {
      if c in a {
        GatheredMembers(disk, relations, task, opts, a, b, c);
        OnceInMultiset(a, c);
        OnceInMultiset(b, c);
      } else if c in b {
        GatheredMembers(disk, relations, task, opts, b, a, c);
      }
    }
    PackIgnoresOrder(a, b, Some(task), opts);
  }

  /** The records considered for their scope have the task's own; and every record that can be read and has it is
      considered. */
  lemma ScopeIsGathered(disk: Disk, relations: set<Edge>, task: string, opts: Options, cs: seq<Candidate>, id: string)
    requires ReadId(disk, task).Success? && Gathered(disk, relations, task, opts, cs) && ReadId(disk, id).Success?
    ensures var own, scope := ReadId(disk, task).value.content.owningScope, ReadId(disk, id).value.content.owningScope;
            && (own != None && own == scope ==> Lists(cs, id))
            && forall c :: c in cs && c.record.id == id && c.provenance == SameScope ==> own != None && own == scope
  {
    hide DistinctIds, CandidateOf, Lists, Related;
  }

  /** The task and its direct relations are in a pack exactly if they are of a kind, of the scope and of a trust asked
      for. */
  lemma RelatedIsPacked(disk: Disk, relations: set<Edge>, task: string, opts: Options, cs: seq<Candidate>, id: string)
    requires ReadId(disk, task).Success? && Gathered(disk, relations, task, opts, cs)
    requires ReadId(disk, id).Success? && (id == task || Related(relations, task, id))
    ensures var p := if id == task then Target else StructuralRelation;
            var c := CandidateOf(ReadId(disk, id).value.content, p, opts);
            c in cs && (InPack(PackOf(cs, Some(task), opts), c) <==> InScope(c, opts) && Trusted(c, opts))
  {
    hide PackOf, DistinctIds, CandidateOf, InScope, Trusted, OmittedFor, InPack;
    assert Lists(cs, id);
    var c :| c in cs && c.record.id == id;
    PackFilters(cs, Some(task), opts, c);
  }
}
