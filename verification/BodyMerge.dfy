/** What `merge_records` makes of bodies and contents (crates/ft-pr/src/merge.rs). */
module BodyMerge {
  import opened Wrappers
  import opened Records
  import opened Merge
  import opened CriteriaMerge
  import opened MergeSymmetry

  /** Two bodies of one of the three kinds of work item. */
  predicate SameWorkItem(a: Body, b: Body) {
    (a.TaskBody? && b.TaskBody?) || (a.SubtaskBody? && b.SubtaskBody?) || (a.BugBody? && b.BugBody?)
  }

  /** Everything in a body but its criteria. */
  function WithoutCriteria(b: Body): Body {
    if b.TaskBody? || b.SubtaskBody? || b.BugBody? then b.(criteria := []) else b
  }

  /** The criteria are merged in work items of one kind and are ours otherwise; everything else is ours always. */
  lemma MergedBodyIs(ours: Body, theirs: Body)
    ensures var m := MergedBody(ours, theirs);
            && WithoutCriteria(m) == WithoutCriteria(ours)
            && CriteriaOf(m) == (if SameWorkItem(ours, theirs) then MergedCriteria(CriteriaOf(ours), CriteriaOf(theirs))
                                 else CriteriaOf(ours))
    ensures forall b ::
      WithoutCriteria(b) == WithoutCriteria(ours) && CriteriaOf(b) == CriteriaOf(MergedBody(ours, theirs)) ==>
        b == MergedBody(ours, theirs)
  {
  }

  /** What a record shows under a text. */
  function SeenIn(r: RecordState, text: string): Option<Seen> {
    SeenAt(CriteriaOf(r.content.body), text)
  }

  lemma MergedRecordBody(base: Option<RecordState>, a: RecordState, b: RecordState)
    ensures MergedRecord(base, a, b).content == MergedContent(base, a.content, b.content)
    ensures MergedRecord(base, a, b).content.body == MergedBody(a.content.body, b.content.body)
  {
    MergedRecordHistory(base, a, b);
  }

  /** The merged record shows the join of what ours shows and all that theirs holds, repeated texts included. */
  lemma MergedRecordJoins(base: Option<RecordState>, a: RecordState, b: RecordState, text: string)
    ensures SeenIn(MergedRecord(base, a, b), text) ==
            if SameWorkItem(a.content.body, b.content.body)
            then Join(SeenIn(a, text), SeenAnywhere(CriteriaOf(b.content.body), text))
            else SeenIn(a, text)
  {
    hide MergedRecord, MergedBody, MergedCriteria, CriteriaOf, SeenAt, SeenAnywhere;
    MergedRecordBody(base, a, b);
    MergedBodyIs(a.content.body, b.content.body);
    MergeJoins(CriteriaOf(a.content.body), CriteriaOf(b.content.body), text);
  }

  /** Some criterion of the text is checked. */
  ghost predicate ChecksText(acs: seq<AcceptanceCriterion>, text: string) {
    exists c :: c in acs && c.text == text && c.status.Checked?
  }

  lemma MergedBodyKeepsCheck(ours: Body, theirs: Body, text: string)
    requires ChecksText(CriteriaOf(ours), text) || ChecksText(CriteriaOf(theirs), text)
    requires SameWorkItem(ours, theirs) || ChecksText(CriteriaOf(ours), text)
    ensures ChecksText(CriteriaOf(MergedBody(ours, theirs)), text)
  {
    hide MergedBody, MergedCriteria, CriteriaOf;
    MergedBodyIs(ours, theirs);
    if SameWorkItem(ours, theirs) {
      var c :| c in CriteriaOf(ours) + CriteriaOf(theirs) && c.text == text && c.status.Checked?;
      CheckedNeverLost(CriteriaOf(ours), CriteriaOf(theirs), c);
    }
  }

  /** No check of either record is lost exactly if both are work items of one kind, or ours has each check of theirs. */
  lemma MergedRecordKeepsChecks(base: Option<RecordState>, a: RecordState, b: RecordState)
    ensures var ours, theirs := CriteriaOf(a.content.body), CriteriaOf(b.content.body);
            var merged := CriteriaOf(MergedRecord(base, a, b).content.body);
            (forall text :: ChecksText(ours, text) || ChecksText(theirs, text) ==> ChecksText(merged, text)) <==>
            SameWorkItem(a.content.body, b.content.body)
            || forall text :: ChecksText(theirs, text) ==> ChecksText(ours, text)
  {
    hide MergedRecord, MergedBody, MergedCriteria, CriteriaOf, ChecksText;
    MergedRecordBody(base, a, b);
    MergedBodyIs(a.content.body, b.content.body);
    var ours, theirs := CriteriaOf(a.content.body), CriteriaOf(b.content.body);
    forall text | ChecksText(ours, text) || ChecksText(theirs, text)
      ensures SameWorkItem(a.content.body, b.content.body) || ChecksText(ours, text) ==>
        ChecksText(CriteriaOf(MergedBody(a.content.body, b.content.body)), text)
    {
      if SameWorkItem(a.content.body, b.content.body) || ChecksText(ours, text) {
        MergedBodyKeepsCheck(a.content.body, b.content.body, text);
      }
    }
  }

  ghost predicate ShowTheSame(a: RecordState, b: RecordState) {
    forall text :: SeenIn(a, text) == SeenIn(b, text)
  }

  /** With distinct texts on each side, swapping the sides leaves what the merged record shows exactly if the bodies are
      work items of one kind, or show the same to begin with. */
  lemma MergedRecordsShowTheSame(base: Option<RecordState>, a: RecordState, b: RecordState)
    requires DistinctTexts(CriteriaOf(a.content.body)) && DistinctTexts(CriteriaOf(b.content.body))
    ensures ShowTheSame(MergedRecord(base, a, b), MergedRecord(base, b, a)) <==>
            SameWorkItem(a.content.body, b.content.body) || ShowTheSame(a, b)
  {
    hide MergedRecord, CriteriaOf, SeenIn, DistinctTexts;
    var x, y := MergedRecord(base, a, b), MergedRecord(base, b, a);
    forall text
      ensures SameWorkItem(a.content.body, b.content.body) ==> SeenIn(x, text) == SeenIn(y, text)
      ensures !SameWorkItem(a.content.body, b.content.body) ==>
        SeenIn(x, text) == SeenIn(a, text) && SeenIn(y, text) == SeenIn(b, text)
    {
      SwappedShows(base, a, b, text);
    }
  }

  lemma SwappedShows(base: Option<RecordState>, a: RecordState, b: RecordState, text: string)
    requires DistinctTexts(CriteriaOf(a.content.body)) && DistinctTexts(CriteriaOf(b.content.body))
    ensures var x, y := SeenIn(MergedRecord(base, a, b), text), SeenIn(MergedRecord(base, b, a), text);
            if SameWorkItem(a.content.body, b.content.body) then x == y
            else x == SeenIn(a, text) && y == SeenIn(b, text)
  {
    hide MergedRecord, CriteriaOf, SeenAt, SeenAnywhere, DistinctTexts;
    MergedRecordJoins(base, a, b, text);
    MergedRecordJoins(base, b, a, text);
    SeenAnywhereOfDistinct(CriteriaOf(a.content.body), text);
    SeenAnywhereOfDistinct(CriteriaOf(b.content.body), text);
    JoinIsLattice(SeenIn(a, text), SeenIn(b, text), None);
  }

  lemma {:induction false} SeenAnywhereIf(acs: seq<AcceptanceCriterion>, text: string)
    ensures SeenAnywhere(acs, text).Some? <==> exists c :: c in acs && c.text == text
    ensures SeenAnywhere(acs, text).Some? && SeenAnywhere(acs, text).value.checked <==>
            exists c :: c in acs && c.text == text && c.status.Checked?
  {
    if acs != [] {
      SeenAnywhereIf(acs[..|acs| - 1], text);
      assert acs == acs[..|acs| - 1] + [acs[|acs| - 1]];
    }
  }

  /** Deletions and unchecks of one side come back from the other, whatever the base: a text is gone from the merged
      record exactly if neither side has it, and unchecked exactly if ours shows no check and theirs holds none. */
  lemma NothingIsTakenBack(base: Option<RecordState>, a: RecordState, b: RecordState, text: string)
    requires SameWorkItem(a.content.body, b.content.body)
    ensures var m, theirs := SeenIn(MergedRecord(base, a, b), text), CriteriaOf(b.content.body);
            && (m.None? <==> SeenIn(a, text).None? && !exists c :: c in theirs && c.text == text)
            && (m.Some? && m.value.checked <==>
                (SeenIn(a, text).Some? && SeenIn(a, text).value.checked)
                || exists c :: c in theirs && c.text == text && c.status.Checked?)
  {
    hide MergedRecord, SeenIn, SeenAnywhere, CriteriaOf;
    MergedRecordJoins(base, a, b, text);
    SeenAnywhereIf(CriteriaOf(b.content.body), text);
  }

  /** The base decides the six fields and nothing else. */
  lemma BaseDecidesFieldsOnly(base: Option<RecordState>, other: Option<RecordState>, a: RecordState, b: RecordState)
    ensures var x, y := MergedRecord(base, a, b), MergedRecord(other, a, b);
            && BareAll(x.history) == BareAll(y.history) && x.content.body == y.content.body
            && x.content == y.content.(title := x.content.title, status := x.content.status,
                                       priority := x.content.priority, owner := x.content.owner,
                                       closedAt := x.content.closedAt, owningScope := x.content.owningScope)
  {
    hide MergedRecord, MergedBody, MergedHistory;
    MergedRecordHistory(base, a, b);
    MergedRecordHistory(other, a, b);
  }

  // --- fields and conflicts ---------------------------------------------------------------------------------------

  /** Theirs where ours left the base alone, ours everywhere else. */
  predicate ThreeWay<T(==)>(base: Option<RecordState>, x: Content, y: Content, m: Content, field: Content -> T) {
    field(m) == if base.Some? && field(base.value.content) == field(x) then field(y) else field(x)
  }

  /** Six fields follow the three-way rule, the update time is the later one, and of the rest only the criteria are not
      simply ours. */
  lemma MergedFieldsAre(base: Option<RecordState>, a: RecordState, b: RecordState)
    ensures var x, y, m := a.content, b.content, MergedRecord(base, a, b).content;
            && ThreeWay(base, x, y, m, (c: Content) => c.title) && ThreeWay(base, x, y, m, (c: Content) => c.status)
            && ThreeWay(base, x, y, m, (c: Content) => c.priority) && ThreeWay(base, x, y, m, (c: Content) => c.owner)
            && ThreeWay(base, x, y, m, (c: Content) => c.closedAt)
            && ThreeWay(base, x, y, m, (c: Content) => c.owningScope)
            && m.updatedAt >= x.updatedAt && m.updatedAt >= y.updatedAt && m.updatedAt in {x.updatedAt, y.updatedAt}
            && WithoutCriteria(m.body) == WithoutCriteria(x.body)
            && m.id == x.id && m.kind == x.kind && m.createdBy == x.createdBy && m.createdAt == x.createdAt
            && m.affectedScopes == x.affectedScopes && m.appliesTo == x.appliesTo && m.labels == x.labels
            && m.origin == x.origin
  {
    MergedRecordBody(base, a, b);
    MergedBodyIs(a.content.body, b.content.body);
    hide MergedRecord, MergedBody, WithoutCriteria, CriteriaOf;
  }

  /** The conflicts of one field, in order. */
  function ConflictsOf(cs: seq<Conflict>, name: string): seq<Conflict> {
    if cs == [] then []
    else
      var before := ConflictsOf(cs[..|cs| - 1], name);
      if cs[|cs| - 1].field == name then before + [cs[|cs| - 1]] else before
  }

  /** The field is listed as a conflict, once, exactly if both sides left the base for different values; the conflict
      then shows the base, if there is one, our value, which the merged record keeps, and theirs. */
  ghost predicate FieldTold<T>(cs: seq<Conflict>, name: string, base: Option<RecordState>, x: Content, y: Content,
                               m: Content, field: Content -> T, show: T -> FieldValue) {
    var shown := if base.None? then Null else show(field(base.value.content));
    if field(x) != field(y)
       && (base.Some? ==> field(base.value.content) != field(x) && field(base.value.content) != field(y)) then
      ConflictsOf(cs, name) == [Conflict(name, shown, show(field(x)), show(field(y)))] && field(m) == field(x)
    else ConflictsOf(cs, name) == []
  }

  lemma {:induction false} ConflictsOfConcat(a: seq<Conflict>, b: seq<Conflict>, name: string)
    ensures ConflictsOf(a + b, name) == ConflictsOf(a, name) + ConflictsOf(b, name)
  {
    if b == [] {
      assert a + b == a;
    } else {
      assert (a + b)[..|a + b| - 1] == a + b[..|b| - 1];
      ConflictsOfConcat(a, b[..|b| - 1], name);
    }
  }

  lemma OfSix(a: seq<Conflict>, b: seq<Conflict>, c: seq<Conflict>, d: seq<Conflict>, e: seq<Conflict>,
              f: seq<Conflict>, name: string)
    ensures ConflictsOf(a + b + c + d + e + f, name)
         == ConflictsOf(a, name) + ConflictsOf(b, name) + ConflictsOf(c, name) + ConflictsOf(d, name)
            + ConflictsOf(e, name) + ConflictsOf(f, name)
  {
    hide ConflictsOf;
    ConflictsOfConcat(a + b + c + d + e, f, name);
    ConflictsOfConcat(a + b + c + d, e, name);
    ConflictsOfConcat(a + b + c, d, name);
    ConflictsOfConcat(a + b, c, name);
    ConflictsOfConcat(a, b, name);
  }

  /** What one field contributes, under its name and under any other. */
  lemma OneField<T>(own: string, base: Option<RecordState>, x: Content, y: Content, field: Content -> T,
                    show: T -> FieldValue, name: string)
    ensures var cs := FieldConflict(own, base, x, y, field, show);
            ConflictsOf(cs, name) == if name == own then cs else []
  {
    var cs := FieldConflict(own, base, x, y, field, show);
    if cs != [] {
      assert cs[..0] == [];
    }
  }

  /** The conflicts of one name come from the field of that name. */
  lemma ConflictsByName(base: Option<RecordState>, x: Content, y: Content, name: string)
    ensures ConflictsOf(Conflicts(base, x, y), name) ==
            if name == "envelope.title" then FieldConflict(name, base, x, y, TitleOf, ShowText)
            else if name == "envelope.status" then FieldConflict(name, base, x, y, StatusOf, ShowStatus)
            else if name == "envelope.priority" then FieldConflict(name, base, x, y, PriorityOf, ShowPriority)
            else if name == "envelope.owner" then FieldConflict(name, base, x, y, OwnerOf, ShowOptText)
            else if name == "envelope.closed_at" then FieldConflict(name, base, x, y, ClosedAtOf, ShowOptTime)
            else if name == "envelope.owning_scope" then FieldConflict(name, base, x, y, ScopeOf, ShowOptText)
            else []
  {
    OneField("envelope.title", base, x, y, TitleOf, ShowText, name);
    OneField("envelope.status", base, x, y, StatusOf, ShowStatus, name);
    OneField("envelope.priority", base, x, y, PriorityOf, ShowPriority, name);
    OneField("envelope.owner", base, x, y, OwnerOf, ShowOptText, name);
    OneField("envelope.closed_at", base, x, y, ClosedAtOf, ShowOptTime, name);
    OneField("envelope.owning_scope", base, x, y, ScopeOf, ShowOptText, name);
    hide FieldConflict, ConflictsOf;
    OfSix(FieldConflict("envelope.title", base, x, y, TitleOf, ShowText),
          FieldConflict("envelope.status", base, x, y, StatusOf, ShowStatus),
          FieldConflict("envelope.priority", base, x, y, PriorityOf, ShowPriority),
          FieldConflict("envelope.owner", base, x, y, OwnerOf, ShowOptText),
          FieldConflict("envelope.closed_at", base, x, y, ClosedAtOf, ShowOptTime),
          FieldConflict("envelope.owning_scope", base, x, y, ScopeOf, ShowOptText), name);
  }

  /** The conflicts of a merge, field by field, and no others. */
  lemma ConflictsAre(base: Option<RecordState>, a: RecordState, b: RecordState)
    requires Merged(base, a, b).Success?
    ensures var cs, m := Merged(base, a, b).value.conflicts, Merged(base, a, b).value.merged.content;
            var x, y := a.content, b.content;
            && FieldTold(cs, "envelope.title", base, x, y, m, (c: Content) => c.title, t => TextValue(t))
            && FieldTold(cs, "envelope.status", base, x, y, m, (c: Content) => c.status, s => StatusValue(s))
            && FieldTold(cs, "envelope.priority", base, x, y, m, (c: Content) => c.priority, p => PriorityValue(p))
            && FieldTold(cs, "envelope.owner", base, x, y, m, (c: Content) => c.owner, o => OptionalText(o))
            && FieldTold(cs, "envelope.closed_at", base, x, y, m, (c: Content) => c.closedAt, t => OptionalTime(t))
            && FieldTold(cs, "envelope.owning_scope", base, x, y, m, (c: Content) => c.owningScope,
                         w => OptionalText(w))
    ensures forall c :: c in Merged(base, a, b).value.conflicts ==>
              c.field in {"envelope.title", "envelope.status", "envelope.priority", "envelope.owner",
                          "envelope.closed_at", "envelope.owning_scope"}
  {
    MergedRecordBody(base, a, b);
    hide MergedRecord, MergedBody, Conflicts, ConflictsOf, FieldConflict, FieldTold;
    var x, y, cs := a.content, b.content, Conflicts(base, a.content, b.content);
    var m := MergedContent(base, x, y);
    NoOtherConflicts(base, x, y);
    ConflictsByName(base, x, y, "envelope.title");
    ConflictsByName(base, x, y, "envelope.status");
    ConflictsByName(base, x, y, "envelope.priority");
    ConflictsByName(base, x, y, "envelope.owner");
    ConflictsByName(base, x, y, "envelope.closed_at");
    ConflictsByName(base, x, y, "envelope.owning_scope");
    ListedIsTold(base, x, y, m, "envelope.title", TitleOf, (c: Content) => c.title, ShowText, t => TextValue(t));
    ListedIsTold(base, x, y, m, "envelope.status", StatusOf, (c: Content) => c.status, ShowStatus, s => StatusValue(s));
    ListedIsTold(base, x, y, m, "envelope.priority", PriorityOf, (c: Content) => c.priority,
                 ShowPriority, p => PriorityValue(p));
    ListedIsTold(base, x, y, m, "envelope.owner", OwnerOf, (c: Content) => c.owner, ShowOptText, o => OptionalText(o));
    ListedIsTold(base, x, y, m, "envelope.closed_at", ClosedAtOf, (c: Content) => c.closedAt,
                 ShowOptTime, t => OptionalTime(t));
    ListedIsTold(base, x, y, m, "envelope.owning_scope", ScopeOf, (c: Content) => c.owningScope,
                 ShowOptText, w => OptionalText(w));
  }

  /** From the accessors of the merge to the fields themselves. */
  lemma ListedIsTold<T(!new)>(base: Option<RecordState>, x: Content, y: Content, m: Content, name: string,
                              f: Content -> T, g: Content -> T, show: T -> FieldValue, shown: T -> FieldValue)
    requires ConflictsOf(Conflicts(base, x, y), name) == FieldConflict(name, base, x, y, f, show)
    requires f(m) == MergedField(base, x, y, f)
    requires (forall c :: f(c) == g(c)) && forall v :: show(v) == shown(v)
    ensures FieldTold(Conflicts(base, x, y), name, base, x, y, m, g, shown)
  {
    hide Conflicts, ConflictsOf;
  }

  lemma NoOtherConflicts(base: Option<RecordState>, x: Content, y: Content)
    ensures forall c :: c in Conflicts(base, x, y) ==>
              c.field in {"envelope.title", "envelope.status", "envelope.priority", "envelope.owner",
                          "envelope.closed_at", "envelope.owning_scope"}
  {
    hide Conflicts, ConflictsOf, FieldConflict;
    forall c | c in Conflicts(base, x, y)
      ensures c.field in {"envelope.title", "envelope.status", "envelope.priority", "envelope.owner",
                          "envelope.closed_at", "envelope.owning_scope"}
    {
      ConflictsByName(base, x, y, c.field);
      NamedIsListed(Conflicts(base, x, y), c);
    }
  }

  lemma {:induction false} NamedIsListed(cs: seq<Conflict>, c: Conflict)
    requires c in cs
    ensures c in ConflictsOf(cs, c.field)
  {
    var n := |cs| - 1;
    assert cs == cs[..n] + [cs[n]];
    if c in cs[..n] {
      NamedIsListed(cs[..n], c);
    }
  }

  // --- the same side once more ------------------------------------------------------------------------------------

  /** Merging the criterion in changes nothing. */
  predicate Absorbed(out: seq<AcceptanceCriterion>, ac: AcceptanceCriterion) {
    match FindText(out, ac.text)
    case None => false
    case Some(i) => Reconciled(out[i], ac) == out[i]
  }

  lemma ReconciledAbsorbs(x: AcceptanceCriterion, ac: AcceptanceCriterion, more: AcceptanceCriterion)
    ensures Reconciled(Reconciled(x, ac), ac) == Reconciled(x, ac)
    ensures Reconciled(x, ac) == x ==> Reconciled(Reconciled(x, more), ac) == Reconciled(x, more)
  {
  }

  lemma WithCriterionAbsorbs(out: seq<AcceptanceCriterion>, more: AcceptanceCriterion, ac: AcceptanceCriterion)
    ensures Absorbed(out, ac) || ac == more ==> Absorbed(WithCriterion(out, more), ac)
  {
    hide FindText, Reconciled;
    var r := WithCriterion(out, more);
    if FindText(out, more.text).Some? {
      var i := FindText(out, more.text).value;
      SameText(out[i], more);
      assert Texts(r) == Texts(out);
      FindTextByTexts(r, out, ac.text);
      ReconciledAbsorbs(out[i], ac, more);
    } else if FindText(out, ac.text).Some? {
      FindTextIs(r, ac.text, FindText(out, ac.text).value);
    } else if ac == more {
      FindTextIs(r, ac.text, |out|);
      SelfReconciled(ac);
    }
  }

  lemma SameText(x: AcceptanceCriterion, ac: AcceptanceCriterion)
    ensures Reconciled(x, ac).text == x.text
  {
  }

  lemma SelfReconciled(ac: AcceptanceCriterion)
    ensures Reconciled(ac, ac) == ac
  {
  }

  lemma {:induction false} MergedAbsorbs(ours: seq<AcceptanceCriterion>, theirs: seq<AcceptanceCriterion>,
                                         ac: AcceptanceCriterion)
    requires ac in theirs
    ensures Absorbed(MergedCriteria(ours, theirs), ac)
    decreases |theirs|
  {
    hide Absorbed, WithCriterion;
    var n := |theirs| - 1;
    assert theirs == theirs[..n] + [theirs[n]];
    if ac in theirs[..n] {
      MergedAbsorbs(ours, theirs[..n], ac);
    }
    WithCriterionAbsorbs(MergedCriteria(ours, theirs[..n]), theirs[n], ac);
  }

  lemma {:induction false} NothingToMerge(out: seq<AcceptanceCriterion>, theirs: seq<AcceptanceCriterion>)
    requires forall ac :: ac in theirs ==> Absorbed(out, ac)
    ensures MergedCriteria(out, theirs) == out
    decreases |theirs|
  {
    hide FindText, Reconciled;
    if theirs != [] {
      NothingToMerge(out, theirs[..|theirs| - 1]);
      assert Absorbed(out, theirs[|theirs| - 1]);
    }
  }

  /** Merging the same criteria in twice is merging them in once, repeated texts included. */
  lemma CriteriaRemerge(ours: seq<AcceptanceCriterion>, theirs: seq<AcceptanceCriterion>)
    ensures MergedCriteria(MergedCriteria(ours, theirs), theirs) == MergedCriteria(ours, theirs)
  {
    hide Absorbed, MergedCriteria;
    forall ac | ac in theirs
      ensures Absorbed(MergedCriteria(ours, theirs), ac)
    {
      MergedAbsorbs(ours, theirs, ac);
    }
    NothingToMerge(MergedCriteria(ours, theirs), theirs);
  }

  lemma BodyRemerge(ours: Body, theirs: Body)
    ensures MergedBody(MergedBody(ours, theirs), theirs) == MergedBody(ours, theirs)
  {
    hide MergedCriteria;
    CriteriaRemerge(CriteriaOf(ours), CriteriaOf(theirs));
  }

  /** The base does not ask for the other side's value of the field: it is another one, or the sides agree. */
  predicate Steady<T(==)>(base: Option<RecordState>, m: Content, t: Content, field: Content -> T) {
    BaseField(base, field) == Some(field(m)) ==> field(t) == field(m)
  }

  predicate AllSteady(base: Option<RecordState>, m: Content, t: Content) {
    && Steady(base, m, t, TitleOf) && Steady(base, m, t, StatusOf) && Steady(base, m, t, PriorityOf)
    && Steady(base, m, t, OwnerOf) && Steady(base, m, t, ClosedAtOf) && Steady(base, m, t, ScopeOf)
  }

  /** Merging the same side into a merged content again, against any base, changes none of it exactly if that base asks
      for no other value of the six fields. */
  lemma ContentRemerge(base: Option<RecordState>, again: Option<RecordState>, ours: Content, theirs: Content)
    ensures var m := MergedContent(base, ours, theirs);
            MergedContent(again, m, theirs) == m <==> AllSteady(again, m, theirs)
  {
    hide MergedBody;
    BodyRemerge(ours.body, theirs.body);
  }

  /** The first base asks for none, nor does having none, nor the side itself, which is what git takes for the base once
      a branch is merged. */
  lemma SteadyBases(base: Option<RecordState>, ours: Content, t: RecordState)
    ensures var m := MergedContent(base, ours, t.content);
            AllSteady(base, m, t.content) && AllSteady(None, m, t.content) && AllSteady(Some(t), m, t.content)
  {
    hide MergedBody;
  }
}
