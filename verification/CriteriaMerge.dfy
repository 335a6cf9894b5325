/** What merging two lists of acceptance criteria does (crates/ft-pr/src/merge.rs, `merge_acs`). */
module CriteriaMerge {
  import opened Wrappers
  import opened Records
  import opened Compact
  import opened Merge

  /** What a reader sees of a criterion. */
  datatype Seen = Seen(checked: bool, updatedAt: Timestamp)

  function SeenOf(ac: AcceptanceCriterion): Seen {
    Seen(ac.status.Checked?, ac.updatedAt)
  }

  /** The view of a list: what is seen under a text, that is, in its first criterion. */
  function SeenAt(acs: seq<AcceptanceCriterion>, text: string): Option<Seen> {
    match FindText(acs, text)
    case Some(i) => Some(SeenOf(acs[i]))
    case None => None
  }

  /** Checked if checked anywhere, and as recent as it gets. */
  function Join(a: Option<Seen>, b: Option<Seen>): Option<Seen> {
    match (a, b)
    case (None, _) => b
    case (_, None) => a
    case (Some(x), Some(y)) => Some(Seen(x.checked || y.checked, Max(x.updatedAt, y.updatedAt)))
  }

  /** The join over every criterion with the text. */
  function SeenAnywhere(acs: seq<AcceptanceCriterion>, text: string): Option<Seen> {
    if acs == [] then None
    else
      var n := |acs| - 1;
      if acs[n].text == text then Join(SeenAnywhere(acs[..n], text), Some(SeenOf(acs[n])))
      else SeenAnywhere(acs[..n], text)
  }

  function Texts(acs: seq<AcceptanceCriterion>): (r: seq<string>)
    ensures |r| == |acs| && forall i :: 0 <= i < |acs| ==> r[i] == acs[i].text
  {
    seq(|acs|, i requires 0 <= i < |acs| => acs[i].text)
  }

  ghost predicate NoRepeats<T(!new)>(s: seq<T>) {
    forall i, j :: 0 <= i < j < |s| ==> s[i] != s[j]
  }

  lemma FindTextIs(acs: seq<AcceptanceCriterion>, text: string, i: nat)
    requires i < |acs| && acs[i].text == text
    requires forall j :: 0 <= j < i ==> acs[j].text != text
    ensures FindText(acs, text) == Some(i)
  {
    hide FindText;
    assert FindText(acs, text).Some?;
  }

  /** Finding looks at the texts only. */
  lemma FindTextByTexts(a: seq<AcceptanceCriterion>, b: seq<AcceptanceCriterion>, text: string)
    requires Texts(a) == Texts(b)
    ensures FindText(a, text) == FindText(b, text)
  {
    hide FindText;
    assert forall i :: 0 <= i < |a| ==> a[i].text == Texts(a)[i] == Texts(b)[i] == b[i].text;
    if FindText(a, text).Some? {
      FindTextIs(b, text, FindText(a, text).value);
    } else {
      assert FindText(b, text).None?;
    }
  }

  lemma FindTextIn(acs: seq<AcceptanceCriterion>, text: string)
    ensures FindText(acs, text).Some? <==> text in Texts(acs)
  {
    hide FindText;
    var r := FindText(acs, text);
    if r.Some? {
      assert Texts(acs)[r.value] == text;
    } else {
      assert forall i :: 0 <= i < |acs| ==> Texts(acs)[i] != text;
    }
  }

  lemma WithCriterionTexts(out: seq<AcceptanceCriterion>, ac: AcceptanceCriterion)
    ensures Texts(WithCriterion(out, ac)) == if ac.text in Texts(out) then Texts(out) else Texts(out) + [ac.text]
  {
    FindTextIn(out, ac.text);
    hide FindText;
  }

  /** One criterion taken in joins the view at its text and leaves it alone elsewhere. */
  lemma WithCriterionJoins(out: seq<AcceptanceCriterion>, ac: AcceptanceCriterion, text: string)
    ensures SeenAt(WithCriterion(out, ac), text)
         == Join(SeenAt(out, text), if text == ac.text then Some(SeenOf(ac)) else None)
  {
    hide FindText;
    var r := WithCriterion(out, ac);
    if FindText(out, ac.text).Some? {
      assert Texts(r) == Texts(out);
      FindTextByTexts(r, out, text);
    } else if FindText(out, text).Some? {
      FindTextIs(r, text, FindText(out, text).value);
    } else if text == ac.text {
      FindTextIs(r, text, |out|);
    } else {
      assert FindText(r, text).None?;
    }
  }

  /** The merge is a join of views, for every list: a text keeps the earliest of its criteria and is
      checked as soon as any criterion of that text on the other side is. */
  lemma {:induction false} MergeJoins(ours: seq<AcceptanceCriterion>, theirs: seq<AcceptanceCriterion>, text: string)
    ensures SeenAt(MergedCriteria(ours, theirs), text) == Join(SeenAt(ours, text), SeenAnywhere(theirs, text))
    decreases |theirs|
  {
    hide WithCriterion, SeenAt;
    if theirs != [] {
      var n := |theirs| - 1;
      MergeJoins(ours, theirs[..n], text);
      WithCriterionJoins(MergedCriteria(ours, theirs[..n]), theirs[n], text);
    }
  }

  lemma {:induction false} AddNewSnoc<T>(acc: seq<T>, xs: seq<T>, x: T)
    ensures var r := AddNew(acc, xs, {}); AddNew(acc, xs + [x], {}) == if x in r then r else r + [x]
    decreases |xs|
  {
    if xs == [] {
      assert (xs + [x])[1..] == [];
    } else {
      assert (xs + [x])[1..] == xs[1..] + [x];
      AddNewSnoc(if xs[0] in acc then acc else acc + [xs[0]], xs[1..], x);
    }
  }

  lemma {:induction false} AddNewNoRepeats<T(!new)>(acc: seq<T>, xs: seq<T>)
    requires NoRepeats(acc)
    ensures NoRepeats(AddNew(acc, xs, {}))
    decreases |xs|
  {
    if xs != [] {
      AddNewNoRepeats(if xs[0] in acc then acc else acc + [xs[0]], xs[1..]);
    }
  }

  /** The texts of a merge: ours in order, then those only theirs has, in order, each once. */
  lemma {:induction false} MergeTexts(ours: seq<AcceptanceCriterion>, theirs: seq<AcceptanceCriterion>)
    ensures Texts(MergedCriteria(ours, theirs)) == AddNew(Texts(ours), Texts(theirs), {})
    decreases |theirs|
  {
    hide WithCriterion;
    if theirs != [] {
      hide AddNew;
      var n := |theirs| - 1;
      MergeTexts(ours, theirs[..n]);
      WithCriterionTexts(MergedCriteria(ours, theirs[..n]), theirs[n]);
      AddNewSnoc(Texts(ours), Texts(theirs[..n]), theirs[n].text);
      assert Texts(theirs) == Texts(theirs[..n]) + [theirs[n].text];
    }
  }

  /** What a later reconciliation may change of a criterion: status, evidence and update time only,
      and a check is never taken back. */
  ghost predicate Refines(before: AcceptanceCriterion, after: AcceptanceCriterion) {
    && after.id == before.id && after.text == before.text
    && after.createdAt == before.createdAt && after.proposed == before.proposed
    && (before.status.Checked? ==>
          after.status.Checked? && after.evidenceUrl == before.evidenceUrl
          && after.checkedBy == before.checkedBy && after.checkedAt == before.checkedAt)
    && before.updatedAt <= after.updatedAt
  }

  /** Ours keeps its place and its ids, repeated texts included. */
  lemma {:induction false} MergeKeepsOurs(ours: seq<AcceptanceCriterion>, theirs: seq<AcceptanceCriterion>)
    ensures |ours| <= |MergedCriteria(ours, theirs)|
    ensures forall i :: 0 <= i < |ours| ==> Refines(ours[i], MergedCriteria(ours, theirs)[i])
    decreases |theirs|
  {
    hide FindText;
    if theirs != [] {
      MergeKeepsOurs(ours, theirs[..|theirs| - 1]);
    }
  }

  ghost predicate SameCheck(a: AcceptanceCriterion, b: AcceptanceCriterion) {
    && a.text == b.text && a.status == b.status && a.evidenceUrl == b.evidenceUrl
    && a.checkedBy == b.checkedBy && a.checkedAt == b.checkedAt
  }

  /** No check without its evidence: the status of each merged criterion, with its evidence, checker and
      time of checking, is that of one criterion of the same text on one of the sides. */
  lemma {:induction false} MergeChecksHaveWitness(ours: seq<AcceptanceCriterion>, theirs: seq<AcceptanceCriterion>,
                                                  i: nat)
    returns (w: AcceptanceCriterion)
    requires i < |MergedCriteria(ours, theirs)|
    ensures w in ours + theirs && SameCheck(w, MergedCriteria(ours, theirs)[i])
    decreases |theirs|
  {
    hide FindText;
    if theirs == [] {
      w := ours[i];
    } else {
      var n := |theirs| - 1;
      var before := MergedCriteria(ours, theirs[..n]);
      w := theirs[n];
      if i < |before| && !SameCheck(w, MergedCriteria(ours, theirs)[i]) {
        w := MergeChecksHaveWitness(ours, theirs[..n], i);
      }
    }
  }

  lemma {:induction false} SeenAnywhereChecked(acs: seq<AcceptanceCriterion>, i: nat)
    requires i < |acs|
    ensures SeenAnywhere(acs, acs[i].text).Some?
    ensures acs[i].status.Checked? ==> SeenAnywhere(acs, acs[i].text).value.checked
    ensures acs[i].updatedAt <= SeenAnywhere(acs, acs[i].text).value.updatedAt
    decreases |acs|
  {
    if i < |acs| - 1 {
      SeenAnywhereChecked(acs[..|acs| - 1], i);
    }
  }

  /** A check is never lost, whichever side made it and however often its text occurs. */
  lemma CheckedNeverLost(ours: seq<AcceptanceCriterion>, theirs: seq<AcceptanceCriterion>, c: AcceptanceCriterion)
    requires c in ours + theirs && c.status.Checked?
    ensures exists m :: m in MergedCriteria(ours, theirs) && m.text == c.text && m.status.Checked?
  {
    hide FindText, MergedCriteria, SeenAnywhere;
    var merged := MergedCriteria(ours, theirs);
    if c in ours {
      MergeKeepsOurs(ours, theirs);
      var i :| 0 <= i < |ours| && ours[i] == c;
      assert Refines(ours[i], merged[i]);
      assert merged[i] in merged;
    } else {
      var i :| 0 <= i < |theirs| && theirs[i] == c;
      SeenAnywhereChecked(theirs, i);
      MergeJoins(ours, theirs, c.text);
      var k := FindText(merged, c.text).value;
      assert merged[k] in merged;
    }
  }

  // --- lists without repeated texts ---------------------------------------------------------------------------

  ghost predicate DistinctTexts(acs: seq<AcceptanceCriterion>) {
    NoRepeats(Texts(acs))
  }

  lemma {:induction false} SeenAnywhereOfDistinct(acs: seq<AcceptanceCriterion>, text: string)
    requires DistinctTexts(acs)
    ensures SeenAnywhere(acs, text) == SeenAt(acs, text)
  {
    if acs != [] {
      var n := |acs| - 1;
      assert Texts(acs[..n]) == Texts(acs)[..n];
      SeenAnywhereOfDistinct(acs[..n], text);
      if acs[n].text == text {
        assert forall j :: 0 <= j < n ==> Texts(acs)[j] != Texts(acs)[n];
        FindTextIs(acs, text, n);
        assert FindText(acs[..n], text).None?;
      }
    }
  }

  lemma JoinIsLattice(a: Option<Seen>, b: Option<Seen>, c: Option<Seen>)
    ensures Join(a, b) == Join(b, a) && Join(a, a) == a && Join(Join(a, b), c) == Join(a, Join(b, c))
  {
  }

  /** Without repeated texts the merge is the pointwise join of the two views, and stays without repeats. */
  lemma MergeIsJoin(ours: seq<AcceptanceCriterion>, theirs: seq<AcceptanceCriterion>)
    requires DistinctTexts(ours) && DistinctTexts(theirs)
    ensures DistinctTexts(MergedCriteria(ours, theirs))
    ensures forall t :: SeenAt(MergedCriteria(ours, theirs), t) == Join(SeenAt(ours, t), SeenAt(theirs, t))
  {
    hide MergedCriteria, SeenAt, SeenAnywhere, NoRepeats, AddNew;
    MergeTexts(ours, theirs);
    AddNewNoRepeats(Texts(ours), Texts(theirs));
    forall t
      ensures SeenAt(MergedCriteria(ours, theirs), t) == Join(SeenAt(ours, t), SeenAt(theirs, t))
    {
      MergeJoins(ours, theirs, t);
      SeenAnywhereOfDistinct(theirs, t);
    }
  }

  /** So, on views, merging is commutative, associative and idempotent. */
  lemma MergeIsSemilattice(a: seq<AcceptanceCriterion>, b: seq<AcceptanceCriterion>, c: seq<AcceptanceCriterion>,
                           text: string)
    requires DistinctTexts(a) && DistinctTexts(b) && DistinctTexts(c)
    ensures SeenAt(MergedCriteria(a, b), text) == SeenAt(MergedCriteria(b, a), text)
    ensures SeenAt(MergedCriteria(MergedCriteria(a, b), c), text)
         == SeenAt(MergedCriteria(a, MergedCriteria(b, c)), text)
    ensures SeenAt(MergedCriteria(a, a), text) == SeenAt(a, text)
  {
    hide MergedCriteria, SeenAt, DistinctTexts;
    MergeIsJoin(a, a);
    MergeIsJoin(a, b);
    MergeIsJoin(b, a);
    MergeIsJoin(b, c);
    MergeIsJoin(MergedCriteria(a, b), c);
    MergeIsJoin(a, MergedCriteria(b, c));
    JoinIsLattice(SeenAt(a, text), SeenAt(b, text), SeenAt(c, text));
  }
}
