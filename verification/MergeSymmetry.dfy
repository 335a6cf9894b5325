/** What swapping the two sides of a merge changes (crates/ft-pr/src/merge.rs). */
module MergeSymmetry {
  import opened Wrappers
  import opened Records
  import opened Compact
  import opened CompactProperties
  import opened Relink
  import opened Commitment
  import opened Sorting
  import opened Merge
  import opened HistoryMerge

  function Swapped(cs: seq<Conflict>): (r: seq<Conflict>)
    ensures |r| == |cs| && forall i :: 0 <= i < |cs| ==> r[i] == cs[i].(ours := cs[i].theirs, theirs := cs[i].ours)
  {
    seq(|cs|, i requires 0 <= i < |cs| => cs[i].(ours := cs[i].theirs, theirs := cs[i].ours))
  }

  /** One scalar: the same conflict with its sides exchanged, or else the same value. */
  lemma ScalarSymmetric<T>(name: string, base: Option<RecordState>, a: Content, b: Content,
                           field: Content -> T, show: T -> FieldValue)
    ensures FieldConflict(name, base, b, a, field, show) == Swapped(FieldConflict(name, base, a, b, field, show))
    ensures FieldConflict(name, base, a, b, field, show) == [] ==>
              MergedField(base, a, b, field) == MergedField(base, b, a, field)
  {
  }

  /** The conflict list is the same list with the sides exchanged, so the same fields conflict. */
  lemma ConflictsSymmetric(base: Option<RecordState>, a: Content, b: Content)
    ensures Conflicts(base, b, a) == Swapped(Conflicts(base, a, b))
  {
    hide FieldConflict;
    ScalarSymmetric("envelope.title", base, a, b, TitleOf, ShowText);
    ScalarSymmetric("envelope.status", base, a, b, StatusOf, ShowStatus);
    ScalarSymmetric("envelope.priority", base, a, b, PriorityOf, ShowPriority);
    ScalarSymmetric("envelope.owner", base, a, b, OwnerOf, ShowOptText);
    ScalarSymmetric("envelope.closed_at", base, a, b, ClosedAtOf, ShowOptTime);
    ScalarSymmetric("envelope.owning_scope", base, a, b, ScopeOf, ShowOptText);
  }

  /** A field conflicts exactly when both sides moved away from the base, to different values. */
  predicate Conflicting<T(==)>(base: Option<RecordState>, a: Content, b: Content, field: Content -> T) {
    Diverged(BaseField(base, field), field(a), field(b))
  }

  /** Off the conflicts the six scalars agree; the update time always does. */
  lemma ScalarsSymmetric(base: Option<RecordState>, a: Content, b: Content)
    ensures var x, y := MergedContent(base, a, b), MergedContent(base, b, a);
            && (x.title == y.title || Conflicting(base, a, b, TitleOf))
            && (x.status == y.status || Conflicting(base, a, b, StatusOf))
            && (x.priority == y.priority || Conflicting(base, a, b, PriorityOf))
            && (x.owner == y.owner || Conflicting(base, a, b, OwnerOf))
            && (x.closedAt == y.closedAt || Conflicting(base, a, b, ClosedAtOf))
            && (x.owningScope == y.owningScope || Conflicting(base, a, b, ScopeOf))
            && x.updatedAt == y.updatedAt
  {
    hide MergedBody;
  }

  /** A merged scalar never comes from nowhere, and a lone change always wins over the base. */
  lemma ScalarThreeWay<T>(base: T, ours: T, theirs: T)
    ensures MergedScalar(Some(base), base, theirs) == theirs && MergedScalar(Some(base), ours, base) == ours
    ensures !Diverged(Some(base), base, theirs) && !Diverged(Some(base), ours, base)
    ensures !Diverged(Some(base), ours, ours)
    ensures ours != theirs ==> (Diverged(None, ours, theirs) && MergedScalar(None, ours, theirs) == ours)
    ensures ours != base && theirs != base && ours != theirs ==>
              Diverged(Some(base), ours, theirs) && MergedScalar(Some(base), ours, theirs) == ours
  {
  }

  // --- histories -------------------------------------------------------------------------------------------------

  lemma BareOfSplice(x: seq<HistoryEntry>, e: HistoryEntry, y: seq<HistoryEntry>)
    ensures multiset(BareAll(x + [e] + y)) == multiset(BareAll(x + y)) + multiset{e.Bare()}
  {
    BareAllConcat(x + [e], y);
    BareAllConcat(x, [e]);
    BareAllConcat(x, y);
    assert BareAll([e]) == [e.Bare()];
    MultisetSplice(BareAll(x), e.Bare(), BareAll(y));
  }

  lemma {:induction false} BareOfRearrangement(a: seq<HistoryEntry>, b: seq<HistoryEntry>)
    requires multiset(a) == multiset(b)
    ensures multiset(BareAll(a)) == multiset(BareAll(b))
  {
    if a == [] {
      assert |multiset(b)| == 0;
      return;
    }
    hide BareAll;
    var n := |a| - 1;
    assert a == a[..n] + [a[n]] + [] && a[..n] + [] == a[..n];
    assert a[n] in multiset(a);
    var i := OccursAt(b, a[n]);
    MultisetRemove(a[..n], a[n], b[..i], b[i + 1..]);
    BareOfRearrangement(a[..n], b[..i] + b[i + 1..]);
    BareOfSplice(a[..n], a[n], []);
    BareOfSplice(b[..i], a[n], b[i + 1..]);
  }

  lemma UnionSymmetric(a: seq<HistoryEntry>, b: seq<HistoryEntry>)
    ensures var k, l := CommonPrefix(a, b), CommonPrefix(b, a);
            k == l && multiset(a + b[k..]) == multiset(b + a[l..])
  {
    CommonPrefixSymmetric(a, b);
    hide CommonPrefix;
    var k := CommonPrefix(a, b);
    assert a == a[..k] + a[k..] && b == b[..k] + b[k..];
  }

  /** No entry of one part is of the same instant as one of the other. */
  ghost predicate Untied(u: seq<HistoryEntry>, v: seq<HistoryEntry>) {
    forall x, y :: x in u && y in v ==> x.timestamp != y.timestamp
  }

  /** At every instant the entries of the two parts read the same either way round. */
  ghost predicate Commute(u: seq<HistoryEntry>, v: seq<HistoryEntry>) {
    forall x: HistoryEntry :: CommuteAt(u, v, x)
  }

  ghost predicate CommuteAt(u: seq<HistoryEntry>, v: seq<HistoryEntry>, x: HistoryEntry) {
    Class(u, x, ByTimestamp) + Class(v, x, ByTimestamp) == Class(v, x, ByTimestamp) + Class(u, x, ByTimestamp)
  }

  lemma ClassOfThree(c: seq<HistoryEntry>, u: seq<HistoryEntry>, v: seq<HistoryEntry>, x: HistoryEntry)
    ensures Class(StableSort(c + u + v, ByTimestamp), x, ByTimestamp)
         == Class(c, x, ByTimestamp) + (Class(u, x, ByTimestamp) + Class(v, x, ByTimestamp))
  {
    ByTimestampIsPreorder();
    hide Class, StableSort, TotalPreorder;
    StableSortStable(c + u + v, x, ByTimestamp);
    ClassConcat(c + u, v, x, ByTimestamp);
    ClassConcat(c, u, x, ByTimestamp);
  }

  lemma SameEnd<T>(a: seq<T>, x: seq<T>, y: seq<T>)
    ensures a + x == a + y <==> x == y
  {
    assert x == (a + x)[|a|..] && y == (a + y)[|a|..];
  }

  /** Two parts behind a common front sort the same either way round exactly if they commute. */
  lemma SwappedSorts(c: seq<HistoryEntry>, u: seq<HistoryEntry>, v: seq<HistoryEntry>)
    ensures StableSort(c + u + v, ByTimestamp) == StableSort(c + v + u, ByTimestamp) <==> Commute(u, v)
  {
    ByTimestampIsPreorder();
    hide Class, StableSort, TotalPreorder, Sorted;
    var p, q := StableSort(c + u + v, ByTimestamp), StableSort(c + v + u, ByTimestamp);
    forall x: HistoryEntry
      ensures Class(p, x, ByTimestamp) == Class(q, x, ByTimestamp) <==> CommuteAt(u, v, x)
    {
      ClassOfThree(c, u, v, x);
      ClassOfThree(c, v, u, x);
      SameEnd(Class(c, x, ByTimestamp), Class(u, x, ByTimestamp) + Class(v, x, ByTimestamp),
              Class(v, x, ByTimestamp) + Class(u, x, ByTimestamp));
    }
    hide CommuteAt;
    if Commute(u, v) {
      StableSortSorted(c + u + v, ByTimestamp);
      StableSortSorted(c + v + u, ByTimestamp);
      StableSortUnique(p, q, ByTimestamp);
    }
  }

  lemma {:induction false} ClassIs(h: seq<HistoryEntry>, x: HistoryEntry)
    ensures forall e :: e in Class(h, x, ByTimestamp) <==> e in h && e.timestamp == x.timestamp
  {
    if h != [] {
      var n := |h| - 1;
      ClassIs(h[..n], x);
      assert h == h[..n] + [h[n]];
    }
  }

  lemma UntiedCommutes(u: seq<HistoryEntry>, v: seq<HistoryEntry>)
    requires Untied(u, v)
    ensures Commute(u, v)
  {
    hide Class;
    forall x: HistoryEntry
      ensures CommuteAt(u, v, x)
    {
      ClassIs(u, x);
      ClassIs(v, x);
      var a, b := Class(u, x, ByTimestamp), Class(v, x, ByTimestamp);
      assert a != [] ==> a[0] in u;
      assert b != [] ==> b[0] in v;
      assert a + [] == a == [] + a && b + [] == b == [] + b;
    }
  }

  /** In commuting parts, entries of one instant start alike. */
  lemma TieIsShared(u: seq<HistoryEntry>, v: seq<HistoryEntry>, x: HistoryEntry, y: HistoryEntry)
    returns (e: HistoryEntry)
    requires Commute(u, v) && x in u && y in v && x.timestamp == y.timestamp
    ensures e in u && e in v
  {
    hide Class;
    assert CommuteAt(u, v, x);
    hide CommuteAt;
    ClassIs(u, x);
    ClassIs(v, x);
    var a, b := Class(u, x, ByTimestamp), Class(v, x, ByTimestamp);
    assert x in a && y in b;
    e := a[0];
    assert a[0] == (a + b)[0] && b[0] == (b + a)[0];
  }

  /** Parts without a common entry commute only if no instants coincide. */
  lemma CommutingIsUntied(u: seq<HistoryEntry>, v: seq<HistoryEntry>)
    requires Commute(u, v) && forall e :: e in u ==> e !in v
    ensures Untied(u, v)
  {
    hide Commute;
    if !Untied(u, v) {
      var x, y :| x in u && y in v && x.timestamp == y.timestamp;
      var e := TieIsShared(u, v, x, y);
    }
  }

  /** What two committed histories add to their common prefix has no entry in common. */
  lemma AddedApart(a: seq<HistoryEntry>, b: seq<HistoryEntry>)
    requires Committed(a) && Committed(b)
    ensures var k := CommonPrefix(a, b); forall e :: e in a[k..] ==> e !in b[k..]
  {
    hide Committed, CommonPrefix;
    var k := CommonPrefix(a, b);
    forall e | e in a[k..] && e in b[k..]
      ensures false
    {
      var i :| 0 <= i < |a[k..]| && a[k..][i] == e;
      var j :| 0 <= j < |b[k..]| && b[k..][j] == e;
      CommitmentIsPrefix(a, b, k + i, k + j);
    }
  }

  /** The two merged histories as sorts of three parts: what is shared, and what each side added. */
  lemma MergedInParts(a: seq<HistoryEntry>, b: seq<HistoryEntry>)
    requires Committed(a) && Committed(b)
    ensures var k := CommonPrefix(a, b);
            && MergedHistory(a, b) == StableSort(a[..k] + a[k..] + b[k..], ByTimestamp)
            && MergedHistory(b, a) == StableSort(a[..k] + b[k..] + a[k..], ByTimestamp)
  {
    hide Committed, CommonPrefix, StableSort, Deduped;
    CommonPrefixSymmetric(a, b);
    MergeDropsCommonPrefix(a, b);
    MergeDropsCommonPrefix(b, a);
    var k := CommonPrefix(a, b);
    assert a == a[..k] + a[k..] && b == a[..k] + b[k..];
  }

  /** The two merged histories hold the same entries, and are the same exactly if no entry that one side added is of the
      same instant as one the other added. */
  lemma HistoriesSymmetric(a: seq<HistoryEntry>, b: seq<HistoryEntry>)
    requires Committed(a) && Committed(b)
    ensures multiset(MergedHistory(a, b)) == multiset(MergedHistory(b, a))
    ensures var k := CommonPrefix(a, b);
            MergedHistory(a, b) == MergedHistory(b, a) <==> Untied(a[k..], b[k..])
  {
    hide Committed, CommonPrefix, MergedHistory, Nondecreasing, Untied, Commute, StableSort;
    var k := CommonPrefix(a, b);
    MergedHistoryIs(a, b, MergedHistory(a, b));
    MergedHistoryIs(b, a, MergedHistory(b, a));
    UnionSymmetric(a, b);
    MergedInParts(a, b);
    SwappedSorts(a[..k], a[k..], b[k..]);
    AddedApart(a, b);
    if Untied(a[k..], b[k..]) {
      UntiedCommutes(a[k..], b[k..]);
    }
    if Commute(a[k..], b[k..]) {
      CommutingIsUntied(a[k..], b[k..]);
    }
  }

  lemma MergedRecordHistory(base: Option<RecordState>, a: RecordState, b: RecordState)
    ensures BareAll(MergedRecord(base, a, b).history) == BareAll(MergedHistory(a.history, b.history))
    ensures MergedRecord(base, a, b).content == MergedContent(base, a.content, b.content)
  {
    hide MergedHistory, MergedContent, RelinkedHistory, HashedFor;
    RelinkedShape(MergedContent(base, a.content, b.content), MergedHistory(a.history, b.history));
  }

  lemma {:induction false} BareInsert(s: seq<HistoryEntry>, e: HistoryEntry)
    ensures BareAll(Insert(s, e, ByTimestamp)) == Insert(BareAll(s), e.Bare(), ByTimestamp)
  {
    if s == [] {
      assert BareAll([e])[0] == e.Bare();
    } else {
      var n := |s| - 1;
      BareInsert(s[..n], e);
      assert BareAll(s)[..n] == BareAll(s[..n]) && BareAll(s)[n] == s[n].Bare();
    }
  }

  /** Sorting by time does not look at hashes. */
  lemma {:induction false} BareSort(s: seq<HistoryEntry>)
    ensures BareAll(StableSort(s, ByTimestamp)) == StableSort(BareAll(s), ByTimestamp)
  {
    hide Insert;
    if s != [] {
      var n := |s| - 1;
      BareSort(s[..n]);
      BareInsert(StableSort(s[..n], ByTimestamp), s[n]);
      assert BareAll(s)[..n] == BareAll(s[..n]) && BareAll(s)[n] == s[n].Bare();
    }
  }

  lemma BareOfThree(c: seq<HistoryEntry>, u: seq<HistoryEntry>, v: seq<HistoryEntry>)
    ensures BareAll(StableSort(c + u + v, ByTimestamp))
         == StableSort(BareAll(c) + BareAll(u) + BareAll(v), ByTimestamp)
  {
    hide StableSort;
    BareSort(c + u + v);
    BareAllConcat(c + u, v);
    BareAllConcat(c, u);
  }

  lemma BareUntied(u: seq<HistoryEntry>, v: seq<HistoryEntry>)
    requires Untied(u, v)
    ensures Untied(BareAll(u), BareAll(v))
  {
    forall x, y | x in BareAll(u) && y in BareAll(v)
      ensures x.timestamp != y.timestamp
    {
      var i :| 0 <= i < |u| && BareAll(u)[i] == x;
      var j :| 0 <= j < |v| && BareAll(v)[j] == y;
      assert u[i] in u && v[j] in v;
    }
  }

  /** Whole records: the histories written by the two merges say the same things, and in the same order exactly if at
      every instant what the two sides added reads the same either way round; so always without ties between them. */
  lemma MergedRecordsSymmetric(base: Option<RecordState>, a: RecordState, b: RecordState)
    requires Committed(a.history) && Committed(b.history)
    ensures var x, y := MergedRecord(base, a, b).history, MergedRecord(base, b, a).history;
            var k := CommonPrefix(a.history, b.history);
            var u, v := a.history[k..], b.history[k..];
            && multiset(BareAll(x)) == multiset(BareAll(y))
            && (BareAll(x) == BareAll(y) <==> Commute(BareAll(u), BareAll(v)))
            && (Untied(u, v) ==> BareAll(x) == BareAll(y))
  {
    var m, w := MergedHistory(a.history, b.history), MergedHistory(b.history, a.history);
    MergedRecordHistory(base, a, b);
    MergedRecordHistory(base, b, a);
    HistoriesSymmetric(a.history, b.history);
    BareOfRearrangement(m, w);
    hide MergedHistory, MergedContent, MergedRecord, Committed, CommonPrefix, StableSort, Untied, Commute, BareAll;
    MergedInParts(a.history, b.history);
    var k := CommonPrefix(a.history, b.history);
    var c, u, v := a.history[..k], a.history[k..], b.history[k..];
    BareOfThree(c, u, v);
    BareOfThree(c, v, u);
    SwappedSorts(BareAll(c), BareAll(u), BareAll(v));
    if Untied(u, v) {
      BareUntied(u, v);
      UntiedCommutes(BareAll(u), BareAll(v));
    }
  }

  /** The two merges are refused together, for ids before kinds. */
  lemma ErrorsSymmetric(base: Option<RecordState>, a: RecordState, b: RecordState)
    ensures Merged(base, a, b).Failure? <==> a.content.id != b.content.id || a.content.kind != b.content.kind
    ensures Merged(base, a, b).Failure? ==> Merged(base, b, a) == Merged(base, a, b)
    ensures Merged(base, a, b) == Failure(IdMismatch) <==> a.content.id != b.content.id
    ensures Merged(base, a, b) == Failure(KindMismatch) <==>
            a.content.id == b.content.id && a.content.kind != b.content.kind
  {
    hide MergedRecord, Conflicts;
  }
}
