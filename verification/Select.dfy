/** Selecting, ranking and packing records under a token budget
    (crates/ft-prime/src/select.rs, score.rs and estimate.rs). */
module Select {
  import opened Wrappers
  import opened Text
  import opened Utf8
  import opened Records
  import opened Sorting

  const USIZE_MAX: nat := 0xFFFF_FFFF_FFFF_FFFF

  type Usize = n: nat | n <= 0xFFFF_FFFF_FFFF_FFFF

  function SaturatingAdd(a: nat, b: nat): (r: Usize)
    ensures r == a + b || (r == USIZE_MAX < a + b)
  {
    if a + b > USIZE_MAX then USIZE_MAX else a + b
  }

  /** How a record came to be considered. */
  datatype Provenance = Target | StructuralRelation | SameScope | QueryHit
  {
    function Relevance(): real {
      match this
      case Target => 1.0
      case StructuralRelation => 1.0
      case QueryHit => 0.5
      case SameScope => 0.3
    }

    predicate IsRequired() {
      Target? || StructuralRelation?
    }

    function Rank(): nat {
      match this
      case Target => 0
      case StructuralRelation => 1
      case QueryHit => 2
      case SameScope => 3
    }
  }

  /** The tuning knobs, with the recency factor as a function of the last update. */
  datatype Options = Options(
    maxTokens: Usize, minTrust: Option<TrustState>, kindFilter: seq<RecordKind>, scopeFilter: Option<string>,
    recency: Timestamp -> real)

  function TrustWeight(t: TrustState): real {
    match t
    case Verified => 1.0
    case Reviewed => 0.7
    case Draft => 0.3
    case Stale => 0.1
    case Deprecated => 0.1
    case _ => 0.0
  }

  predicate MeetsTrustFloor(t: TrustState, floor: Option<TrustState>) {
    floor.None? || TrustWeight(t) >= TrustWeight(floor.value)
  }

  /** Work items carry no trust of their own and count as verified. */
  function RecordTrust(c: Content): TrustState {
    if c.body.KnowledgeBody? then c.body.trust else Verified
  }

  /** The text an excerpt is cut from. */
  function BodyText(b: Body): string {
    if b.KnowledgeBody? then b.excerptText else b.description
  }

  datatype Candidate = Candidate(record: Content, provenance: Provenance, trust: TrustState, score: real)

  function CandidateOf(c: Content, p: Provenance, opts: Options): Candidate {
    Candidate(c, p, RecordTrust(c), TrustWeight(RecordTrust(c)) * p.Relevance() * opts.recency(c.updatedAt))
  }

  /** Work items count as verified, knowledge as it is trusted. A verified record with a required route scores its
      recency; the other routes and states scale that down. */
  lemma ScoreIs(c: Content, p: Provenance, opts: Options)
    ensures var x := CandidateOf(c, p, opts);
            && x.record == c && x.provenance == p
            && x.trust == (match c.body case KnowledgeBody(t, _, _) => t case _ => Verified)
            && x.score == opts.recency(c.updatedAt) * InTenths(x.trust) * RouteInTenths(p) / 100.0
  {
    var r, w, v := opts.recency(c.updatedAt), TrustWeight(RecordTrust(c)), p.Relevance();
    assert InTenths(RecordTrust(c)) == 10.0 * w && RouteInTenths(p) == 10.0 * v;
    TenTimesTen(r, w, v);
  }

  function InTenths(t: TrustState): real {
    if t == Verified then 10.0 else if t == Reviewed then 7.0 else if t == Draft then 3.0
    else if t in {Stale, Deprecated} then 1.0 else 0.0
  }

  function RouteInTenths(p: Provenance): real {
    if p in {Target, StructuralRelation} then 10.0 else if p == QueryHit then 5.0 else 3.0
  }

  lemma TenTimesTen(r: real, w: real, v: real)
    ensures w * v * r == r * (10.0 * w) * (10.0 * v) / 100.0
  {
    assert r * (10.0 * w) * (10.0 * v) == 100.0 * (w * v * r);
  }

  // --- token estimates ---------------------------------------------------------------------------------------------

  /** A token for every four characters begun. */
  function EstimateTokens(text: string): (n: nat)
    ensures 4 * n >= |text| > 4 * (n - 1)
  {
    (|text| + 3) / 4
  }

  predicate IsBlank(s: string) {
    forall c :: c in s ==> IsWhitespace(c)
  }

  /** The text before the first blank line, and what follows it. */
  function CutParagraph(s: string): (r: (string, Option<string>))
    ensures r.1.None? ==> r.0 == s
    ensures r.1.Some? ==> r.0 + "\n\n" + r.1.value == s
  {
    if |s| < 2 then (s, None)
    else if s[0] == '\n' && s[1] == '\n' then
      assert "" + "\n\n" + s[2..] == s;
      ("", Some(s[2..]))
    else
      var (p, rest) := CutParagraph(s[1..]);
      assert rest.Some? ==> [s[0]] + p + "\n\n" + rest.value == [s[0]] + (p + "\n\n" + rest.value);
      ([s[0]] + p, rest)
  }

  /** The first paragraph that is not blank, or nothing. */
  function FirstParagraph(s: string): string
    decreases |s|
  {
    var (p, rest) := CutParagraph(s);
    if !IsBlank(p) then p
    else if rest.None? then ""
    else FirstParagraph(rest.value)
  }

  ghost predicate HasBlankLine(s: string) {
    exists i :: 0 <= i < |s| - 1 && s[i] == s[i + 1] == '\n'
  }

  lemma {:induction false} CutBeforeBlankLine(s: string)
    ensures !HasBlankLine(CutParagraph(s).0)
    ensures IsBlank(s) <==> IsBlank(CutParagraph(s).0) && IsBlank(CutParagraph(s).1.UnwrapOr(""))
  {
    if |s| >= 2 && !(s[0] == '\n' && s[1] == '\n') {
      CutBeforeBlankLine(s[1..]);
      assert s == [s[0]] + s[1..];
    }
    var (p, rest) := CutParagraph(s);
    assert rest.Some? ==> forall c :: c in s <==> c in p || c == '\n' || c in rest.value;
  }

  /** A piece of the text without a blank line in it, empty only if there is nothing but whitespace. */
  lemma {:induction false} FirstParagraphIs(s: string) returns (front: string, back: string)
    ensures s == front + FirstParagraph(s) + back && IsBlank(front)
    ensures !HasBlankLine(FirstParagraph(s))
    ensures FirstParagraph(s) == "" <==> IsBlank(s)
    decreases |s|
  {
    hide CutParagraph, IsWhitespace, HasBlankLine;
    NoBlankLine();
    CutBeforeBlankLine(s);
    var p, rest := CutParagraph(s).0, CutParagraph(s).1;
    if !IsBlank(p) {
      front, back := "", if rest.Some? then "\n\n" + rest.value else "";
      assert front + p + back == s;
    } else if rest.None? {
      front, back := s, "";
      assert front + "" + back == s;
    } else {
      var f;
      f, back := FirstParagraphIs(rest.value);
      front := BlankFront(p, f);
      assert front + FirstParagraph(rest.value) + back == p + "\n\n" + (f + FirstParagraph(rest.value) + back);
    }
  }

  lemma NoBlankLine()
    ensures !HasBlankLine("")
  {
  }

  lemma BlankFront(p: string, f: string) returns (front: string)
    requires IsBlank(p) && IsBlank(f)
    ensures front == p + "\n\n" + f && IsBlank(front)
  {
    front := p + "\n\n" + f;
    assert forall c :: c in front <==> c in p || c == '\n' || c in f;
  }

  const TRUNCATED := "\n\n...truncated..."

  /** `excerpt_for`: the excerpt, and the tokens of title and excerpt together. */
  function ExcerptFor(c: Content, budget: nat): (string, nat) {
    var full := BodyText(c.body);
    var cap := budget / 4;
    var excerpt := if EstimateTokens(full) <= cap || cap == 0 then full else FirstParagraph(full) + TRUNCATED;
    (excerpt, EstimateTokens(c.title) + EstimateTokens(excerpt))
  }

  /** A body is cut exactly when it takes more than a quarter of a budget worth dividing, and then to one paragraph. */
  lemma ExcerptIs(c: Content, full: string, budget: nat) returns (front: string, back: string)
    requires match c.body
             case EpicBody(description, _) => full == description
             case TaskBody(description, _, _, _, _) => full == description
             case SubtaskBody(description, _, _, _, _) => full == description
             case BugBody(description, _, _, _, _, _) => full == description
             case KnowledgeBody(_, excerptText, _) => full == excerptText
    ensures 4 * EstimateTokens(full) <= budget || budget < 4 ==> ExcerptFor(c, budget).0 == full
    ensures 4 * EstimateTokens(full) > budget >= 4 ==>
      exists p :: full == front + p + back && IsBlank(front) && !HasBlankLine(p)
                  && (p == "" <==> IsBlank(full)) && ExcerptFor(c, budget).0 == p + "\n\n...truncated..."
    ensures ExcerptFor(c, budget).1 == EstimateTokens(c.title) + EstimateTokens(ExcerptFor(c, budget).0)
  {
    hide FirstParagraph, HasBlankLine, IsBlank;
    front, back := FirstParagraphIs(full);
  }

  // --- the pack ----------------------------------------------------------------------------------------------------

  datatype OmittedReason = BudgetExceeded | BelowTrustFloor | ScopeFiltered

  datatype PackItem = PackItem(
    id: string, kind: RecordKind, title: string, trust: TrustState, score: real, tokens: nat, excerpt: string)

  datatype OmittedEntry = OmittedEntry(id: string, kind: RecordKind, reason: OmittedReason)

  datatype ContextPack = ContextPack(
    targetId: Option<string>, items: seq<PackItem>, totalTokens: nat, budget: nat, omitted: seq<OmittedEntry>)

  /** The order of the pack: rank, then score from high to low, then id. */
  predicate Before(a: Candidate, b: Candidate) {
    if a.provenance.Rank() != b.provenance.Rank() then a.provenance.Rank() < b.provenance.Rank()
    else if a.score != b.score then a.score > b.score
    else LexLe(a.record.id, b.record.id)
  }

  function ItemOf(c: Candidate, budget: nat): PackItem {
    var (excerpt, tokens) := ExcerptFor(c.record, budget);
    PackItem(c.record.id, c.record.kind, c.record.title, c.trust, c.score, tokens, excerpt)
  }

  function Tokens(c: Candidate, opts: Options): nat {
    ItemOf(c, opts.maxTokens).tokens
  }

  /** Why the filters drop a candidate, if they do. */
  function Filtered(c: Candidate, opts: Options): Option<OmittedReason> {
    if opts.kindFilter != [] && c.record.kind !in opts.kindFilter then Some(ScopeFiltered)
    else if opts.scopeFilter.Some? && c.record.owningScope != opts.scopeFilter then Some(ScopeFiltered)
    else if !MeetsTrustFloor(c.trust, opts.minTrust) then Some(BelowTrustFloor)
    else None
  }

  /** The states a floor admits. */
  predicate Admits(floor: TrustState, t: TrustState) {
    match floor
    case Verified => t == Verified
    case Reviewed => t in {Verified, Reviewed}
    case Draft => t in {Verified, Reviewed, Draft}
    case Stale => t in {Verified, Reviewed, Draft, Stale, Deprecated}
    case Deprecated => t in {Verified, Reviewed, Draft, Stale, Deprecated}
    case _ => true
  }

  /** Of a kind and of the scope asked for, if any are. */
  predicate InScope(c: Candidate, opts: Options) {
    && (opts.kindFilter != [] ==> exists i :: 0 <= i < |opts.kindFilter| && opts.kindFilter[i] == c.record.kind)
    && (opts.scopeFilter.Some? ==> c.record.owningScope == Some(opts.scopeFilter.value))
  }

  predicate Trusted(c: Candidate, opts: Options) {
    opts.minTrust.Some? ==> Admits(opts.minTrust.value, c.trust)
  }

  /** Found by the search or in the scope, rather than by the task itself. */
  predicate Optional(c: Candidate) {
    c.provenance == QueryHit || c.provenance == SameScope
  }

  lemma FilteredIs(c: Candidate, opts: Options)
    ensures Filtered(c, opts) == Some(ScopeFiltered) <==> !InScope(c, opts)
    ensures Filtered(c, opts) == Some(BelowTrustFloor) <==> InScope(c, opts) && !Trusted(c, opts)
    ensures Filtered(c, opts) == None <==> InScope(c, opts) && Trusted(c, opts)
    ensures Optional(c) <==> !c.provenance.IsRequired()
  {
  }

  datatype Tally = Tally(items: seq<PackItem>, omitted: seq<OmittedEntry>, used: nat)

  /** What becomes of a candidate when `used` tokens are taken. */
  function Verdict(c: Candidate, used: nat, opts: Options): Option<OmittedReason> {
    if Filtered(c, opts).Some? then Filtered(c, opts)
    else if SaturatingAdd(used, Tokens(c, opts)) > opts.maxTokens && !c.provenance.IsRequired() then
      Some(BudgetExceeded)
    else None
  }

  function Step(t: Tally, c: Candidate, opts: Options): Tally {
    match Verdict(c, t.used, opts)
    case Some(reason) => t.(omitted := t.omitted + [OmittedEntry(c.record.id, c.record.kind, reason)])
    case None =>
      t.(items := t.items + [ItemOf(c, opts.maxTokens)], used := SaturatingAdd(t.used, Tokens(c, opts)))
  }

  /** The candidates taken in turn. */
  function Packed(cs: seq<Candidate>, opts: Options): Tally {
    if cs == [] then Tally([], [], 0) else Step(Packed(cs[..|cs| - 1], opts), cs[|cs| - 1], opts)
  }

  function PackOf(candidates: seq<Candidate>, target: Option<string>, opts: Options): ContextPack {
    var t := Packed(StableSort(candidates, Before), opts);
    ContextPack(target, t.items, t.used, opts.maxTokens, t.omitted)
  }

  /** `pack`. */
  method Pack(candidates: seq<Candidate>, target: Option<string>, opts: Options) returns (pack: ContextPack)
    ensures pack == PackOf(candidates, target, opts)
  {
    hide ExcerptFor, Filtered, Before, SaturatingAdd;
    var sorted := StableSort(candidates, Before);
    var items: seq<PackItem> := [];
    var omitted: seq<OmittedEntry> := [];
    var used: nat := 0;
    for i := 0 to |sorted|
      invariant Packed(sorted[..i], opts) == Tally(items, omitted, used)
    {
      var c := sorted[i];
      assert sorted[..i + 1][..i] == sorted[..i];
      var filtered := Filtered(c, opts);
      if filtered.Some? {
        omitted := omitted + [OmittedEntry(c.record.id, c.record.kind, filtered.value)];
        continue;
      }
      var item := ItemOf(c, opts.maxTokens);
      if SaturatingAdd(used, item.tokens) > opts.maxTokens && !c.provenance.IsRequired() {
        omitted := omitted + [OmittedEntry(item.id, item.kind, BudgetExceeded)];
        continue;
      }
      used := SaturatingAdd(used, item.tokens);
      items := items + [item];
    }
    assert sorted[..|sorted|] == sorted;
    pack := ContextPack(target, items, used, opts.maxTokens, omitted);
  }

  // --- the order ---------------------------------------------------------------------------------------------------

  lemma BeforeIsTotal()
    ensures TotalPreorder(Before)
  {
    forall a, b
      ensures Before(a, b) || Before(b, a)
    {
      LexTotal(a.record.id, b.record.id);
    }
    forall a, b, c | Before(a, b) && Before(b, c)
      ensures Before(a, c)
    {
      BeforeTransitive(a, b, c);
    }
  }

  lemma BeforeTransitive(a: Candidate, b: Candidate, c: Candidate)
    requires Before(a, b) && Before(b, c)
    ensures Before(a, c)
  {
    hide LexLe;
    if LexLe(a.record.id, b.record.id) && LexLe(b.record.id, c.record.id) {
      LexTransitive(a.record.id, b.record.id, c.record.id);
    }
  }

  ghost predicate DistinctIds(cs: seq<Candidate>) {
    forall i, j :: 0 <= i < j < |cs| ==> cs[i].record.id != cs[j].record.id
  }

  /** Candidates are told apart by their ids, so the order leaves no ties. */
  lemma NoTies(cs: seq<Candidate>)
    requires DistinctIds(cs)
    ensures AntisymmetricOn(cs, Before)
  {
    hide LexLe;
    forall a, b | a in cs && b in cs && Before(a, b) && Before(b, a)
      ensures a == b
    {
      LexAntisymmetric(a.record.id, b.record.id);
    }
  }

  /** The pack does not depend on the order in which candidates were found. */
  lemma PackIgnoresOrder(a: seq<Candidate>, b: seq<Candidate>, target: Option<string>, opts: Options)
    requires multiset(a) == multiset(b) && DistinctIds(a)
    ensures PackOf(a, target, opts) == PackOf(b, target, opts)
  {
    hide Before, Packed, DistinctIds, AntisymmetricOn;
    BeforeIsTotal();
    StableSortSorted(a, Before);
    StableSortSorted(b, Before);
    StableSortKeeps(a, Before);
    StableSortKeeps(b, Before);
    NoTies(a);
    SameMembers(StableSort(a, Before), a);
    SortedUnique(StableSort(a, Before), StableSort(b, Before), Before);
  }

  lemma SameMembers(s: seq<Candidate>, t: seq<Candidate>)
    requires multiset(s) == multiset(t) && AntisymmetricOn(t, Before)
    ensures AntisymmetricOn(s, Before)
  {
    hide Before;
    forall x | x in s
      ensures x in t
    {
      assert x in multiset(t);
    }
  }

  // --- the budget --------------------------------------------------------------------------------------------------

  function RequiredTokens(cs: seq<Candidate>, opts: Options): nat {
    if cs == [] then 0
    else
      var c := cs[|cs| - 1];
      RequiredTokens(cs[..|cs| - 1], opts)
      + if c.provenance.IsRequired() && Filtered(c, opts).None? then Tokens(c, opts) else 0
  }

  /** Sorted candidates have the required ones in front. */
  ghost predicate RequiredFirst(cs: seq<Candidate>) {
    forall i, j :: 0 <= i < j < |cs| && cs[j].provenance.IsRequired() ==> cs[i].provenance.IsRequired()
  }

  lemma SortedRequiredFirst(cs: seq<Candidate>)
    requires Sorted(cs, Before)
    ensures RequiredFirst(cs)
  {
    hide LexLe;
  }

  /** Candidate `i` gets into the pack. */
  predicate KeptAt(cs: seq<Candidate>, opts: Options, i: nat)
    requires i < |cs|
  {
    Verdict(cs[i], Packed(cs[..i], opts).used, opts).None?
  }

  ghost predicate AllRequired(cs: seq<Candidate>) {
    forall c :: c in cs ==> c.provenance.IsRequired()
  }

  ghost predicate OptionalKept(cs: seq<Candidate>, opts: Options) {
    exists i :: 0 <= i < |cs| && !cs[i].provenance.IsRequired() && KeptAt(cs, opts, i)
  }

  lemma RequiredBeforeLast(cs: seq<Candidate>)
    requires RequiredFirst(cs) && cs != []
    ensures RequiredFirst(cs[..|cs| - 1])
    ensures cs[|cs| - 1].provenance.IsRequired() ==> AllRequired(cs)
    ensures AllRequired(cs) ==> AllRequired(cs[..|cs| - 1])
  {
  }

  lemma OptionalBeforeLast(cs: seq<Candidate>, opts: Options)
    requires cs != [] && OptionalKept(cs, opts)
    ensures OptionalKept(cs[..|cs| - 1], opts)
            || (!cs[|cs| - 1].provenance.IsRequired() && KeptAt(cs, opts, |cs| - 1))
  {
    hide KeptAt;
    KeptEarlier(cs, opts);
  }

  /** The total exceeds the budget only by required items, and only while nothing optional was kept. */
  lemma {:induction false} TotalIsBounded(cs: seq<Candidate>, opts: Options)
    requires RequiredFirst(cs)
    ensures Packed(cs, opts).used <= opts.maxTokens || Packed(cs, opts).used <= RequiredTokens(cs, opts)
    ensures AllRequired(cs) ==> Packed(cs, opts).used <= RequiredTokens(cs, opts)
    ensures OptionalKept(cs, opts) ==> Packed(cs, opts).used <= opts.maxTokens && !AllRequired(cs)
  {
    hide Filtered, Tokens, RequiredFirst, AllRequired;
    if cs != [] {
      RequiredBeforeLast(cs);
      TotalIsBounded(cs[..|cs| - 1], opts);
      if OptionalKept(cs, opts) {
        OptionalBeforeLast(cs, opts);
      }
      hide OptionalKept;
      OptionalIsNotRequired(cs, opts);
    }
  }

  lemma OptionalIsNotRequired(cs: seq<Candidate>, opts: Options)
    ensures OptionalKept(cs, opts) ==> !AllRequired(cs)
  {
    hide KeptAt;
  }

  lemma KeptEarlier(cs: seq<Candidate>, opts: Options)
    requires cs != []
    ensures forall i :: 0 <= i < |cs| - 1 ==> (KeptAt(cs, opts, i) <==> KeptAt(cs[..|cs| - 1], opts, i))
  {
    forall i | 0 <= i < |cs| - 1
      ensures KeptAt(cs, opts, i) <==> KeptAt(cs[..|cs| - 1], opts, i)
    {
      assert cs[..|cs| - 1][..i] == cs[..i];
    }
  }

  lemma {:induction false} UsedGrows(cs: seq<Candidate>, opts: Options, i: nat)
    requires i <= |cs|
    ensures Packed(cs[..i], opts).used <= Packed(cs, opts).used
    decreases |cs|
  {
    hide Verdict, Tokens;
    if i < |cs| {
      UsedGrows(cs[..|cs| - 1], opts, i);
      assert cs[..|cs| - 1][..i] == cs[..i];
      PackedIsUsize(cs[..|cs| - 1], opts);
    } else {
      assert cs[..i] == cs;
    }
  }

  lemma {:induction false} PackedIsUsize(cs: seq<Candidate>, opts: Options)
    ensures Packed(cs, opts).used <= USIZE_MAX
  {
    hide Verdict, Tokens;
    if cs != [] {
      PackedIsUsize(cs[..|cs| - 1], opts);
    }
  }

  function SumTokens(items: seq<PackItem>): nat {
    if items == [] then 0 else SumTokens(items[..|items| - 1]) + items[|items| - 1].tokens
  }

  /** The reported total is the sum of what was packed, up to the width of the counter. */
  lemma {:induction false} TotalIsSum(cs: seq<Candidate>, opts: Options)
    ensures Packed(cs, opts).used == SaturatingAdd(SumTokens(Packed(cs, opts).items), 0)
  {
    hide Verdict, ExcerptFor;
    if cs != [] {
      TotalIsSum(cs[..|cs| - 1], opts);
      var t := Packed(cs[..|cs| - 1], opts);
      var item := ItemOf(cs[|cs| - 1], opts.maxTokens);
      assert (t.items + [item])[..|t.items|] == t.items;
    }
  }

  // --- what becomes of each candidate ------------------------------------------------------------------------------

  function EntryOf(c: Candidate, reason: OmittedReason): OmittedEntry {
    OmittedEntry(c.record.id, c.record.kind, reason)
  }

  /** Every item and every omission comes from a candidate with that verdict, and the other way round. */
  ghost predicate Accounted(cs: seq<Candidate>, opts: Options, t: Tally) {
    && (forall x :: x in t.items ==>
          exists i :: 0 <= i < |cs| && KeptAt(cs, opts, i) && x == ItemOf(cs[i], opts.maxTokens))
    && (forall x :: x in t.omitted ==>
          exists i :: 0 <= i < |cs| && !KeptAt(cs, opts, i)
                      && x == EntryOf(cs[i], Verdict(cs[i], Packed(cs[..i], opts).used, opts).value))
    && (forall i :: 0 <= i < |cs| ==>
          if KeptAt(cs, opts, i) then ItemOf(cs[i], opts.maxTokens) in t.items
          else EntryOf(cs[i], Verdict(cs[i], Packed(cs[..i], opts).used, opts).value) in t.omitted)
  }

  lemma {:induction false} PackedAccounted(cs: seq<Candidate>, opts: Options)
    ensures Accounted(cs, opts, Packed(cs, opts))
    ensures |Packed(cs, opts).items| + |Packed(cs, opts).omitted| == |cs|
  {
    if cs != [] {
      PackedAccounted(cs[..|cs| - 1], opts);
      AccountedStep(cs, opts, Packed(cs[..|cs| - 1], opts));
    }
  }

  lemma AccountedStep(cs: seq<Candidate>, opts: Options, t: Tally)
    requires cs != [] && t == Packed(cs[..|cs| - 1], opts) && Accounted(cs[..|cs| - 1], opts, t)
    ensures Accounted(cs, opts, Step(t, cs[|cs| - 1], opts))
  {
    hide Verdict, ItemOf, Packed, SaturatingAdd, Tokens;
    var n := |cs| - 1;
    KeptEarlier(cs, opts);
    assert forall i :: 0 <= i < n ==> cs[..n][..i] == cs[..i];
  }

  /** `c` is packed. */
  predicate InPack(pack: ContextPack, c: Candidate) {
    ItemOf(c, pack.budget) in pack.items
  }

  predicate OmittedFor(pack: ContextPack, c: Candidate, reason: OmittedReason) {
    EntryOf(c, reason) in pack.omitted
  }

  lemma VerdictInPack(cs: seq<Candidate>, opts: Options, i: nat, reason: OmittedReason)
    requires DistinctIds(cs) && i < |cs|
    ensures ItemOf(cs[i], opts.maxTokens) in Packed(cs, opts).items <==> KeptAt(cs, opts, i)
    ensures EntryOf(cs[i], reason) in Packed(cs, opts).omitted <==>
            Verdict(cs[i], Packed(cs[..i], opts).used, opts) == Some(reason)
  {
    hide Verdict, Packed, SaturatingAdd, Tokens, ExcerptFor;
    PackedAccounted(cs, opts);
    if ItemOf(cs[i], opts.maxTokens) in Packed(cs, opts).items {
      var j :| 0 <= j < |cs| && KeptAt(cs, opts, j) && ItemOf(cs[i], opts.maxTokens) == ItemOf(cs[j], opts.maxTokens);
      assert cs[i].record.id == cs[j].record.id;
    }
    if EntryOf(cs[i], reason) in Packed(cs, opts).omitted {
      var j :| 0 <= j < |cs| && !KeptAt(cs, opts, j)
               && EntryOf(cs[i], reason) == EntryOf(cs[j], Verdict(cs[j], Packed(cs[..j], opts).used, opts).value);
      assert cs[i].record.id == cs[j].record.id;
    }
  }

  lemma SortedCandidates(candidates: seq<Candidate>, c: Candidate) returns (i: nat)
    requires DistinctIds(candidates) && c in candidates
    ensures i < |candidates| && StableSort(candidates, Before)[i] == c && DistinctIds(StableSort(candidates, Before))
  {
    hide Before;
    StableSortKeeps(candidates, Before);
    var cs := StableSort(candidates, Before);
    assert c in multiset(candidates);
    i :| 0 <= i < |cs| && cs[i] == c;
    DistinctIdsPermute(candidates, cs);
  }

  lemma DistinctIdsPermute(a: seq<Candidate>, b: seq<Candidate>)
    requires multiset(a) == multiset(b) && DistinctIds(a)
    ensures DistinctIds(b)
  {
    forall i, j | 0 <= i < j < |b|
      ensures b[i].record.id != b[j].record.id
    {
      assert b[i] in multiset(a) && b[j] in multiset(a);
      if b[i] == b[j] {
        TwiceInMultiset(b, i, j);
        OnceInMultiset(a, b[i]);
      }
    }
  }

  lemma TwiceInMultiset(s: seq<Candidate>, i: nat, j: nat)
    requires i < j < |s| && s[i] == s[j]
    ensures multiset(s)[s[i]] >= 2
  {
    assert s == s[..i] + [s[i]] + s[i + 1..j] + [s[j]] + s[j + 1..];
  }

  lemma OnceInMultiset(s: seq<Candidate>, c: Candidate)
    requires DistinctIds(s) && c in s
    ensures multiset(s)[c] == 1
  {
    var i :| 0 <= i < |s| && s[i] == c;
    assert s == s[..i] + [c] + s[i + 1..];
    assert c !in s[..i] && c !in s[i + 1..];
  }

  /** Each candidate is packed or omitted, once and for the reason that applies. */
  lemma PackDecides(candidates: seq<Candidate>, target: Option<string>, opts: Options, c: Candidate)
    requires DistinctIds(candidates) && c in candidates
    ensures InPack(PackOf(candidates, target, opts), c) <==>
            !(exists reason :: OmittedFor(PackOf(candidates, target, opts), c, reason))
    ensures forall r, s ::
      OmittedFor(PackOf(candidates, target, opts), c, r) && OmittedFor(PackOf(candidates, target, opts), c, s) ==>
        r == s
    ensures forall r :: r != BudgetExceeded ==>
      (OmittedFor(PackOf(candidates, target, opts), c, r) <==> Filtered(c, opts) == Some(r))
    ensures OmittedFor(PackOf(candidates, target, opts), c, BudgetExceeded) ==>
      !c.provenance.IsRequired()
      && SaturatingAdd(PackOf(candidates, target, opts).totalTokens, Tokens(c, opts)) > opts.maxTokens
  {
    var cs := StableSort(candidates, Before);
    var i := SortedCandidates(candidates, c);
    forall reason {
      VerdictInPack(cs, opts, i, reason);
    }
    UsedGrows(cs, opts, i);
    FilterIsNotBudget(c, opts);
    hide Packed, Filtered, ItemOf, EntryOf, Before;
    VerdictInPack(cs, opts, i, BudgetExceeded);
    var verdict := Verdict(c, Packed(cs[..i], opts).used, opts);
    if verdict.Some? {
      VerdictInPack(cs, opts, i, verdict.value);
      assert OmittedFor(PackOf(candidates, target, opts), c, verdict.value);
    }
  }

  /** What the filters let through, in terms of the records: a packed one is of a kind, scope and trust asked for; a
      required one that is gets packed; what is omitted is omitted for the filter it fails, or for the budget. */
  lemma PackFilters(candidates: seq<Candidate>, target: Option<string>, opts: Options, c: Candidate)
    requires DistinctIds(candidates) && c in candidates
    ensures var pack := PackOf(candidates, target, opts);
            && (InPack(pack, c) ==> InScope(c, opts) && Trusted(c, opts))
            && (InScope(c, opts) && Trusted(c, opts) && !Optional(c) ==> InPack(pack, c))
            && (OmittedFor(pack, c, ScopeFiltered) <==> !InScope(c, opts))
            && (OmittedFor(pack, c, BelowTrustFloor) <==> InScope(c, opts) && !Trusted(c, opts))
            && (OmittedFor(pack, c, BudgetExceeded) ==> InScope(c, opts) && Trusted(c, opts) && Optional(c))
  {
    PackDecides(candidates, target, opts, c);
    FilteredIs(c, opts);
    hide PackOf, InPack, OmittedFor, InScope, Trusted, Optional, Filtered, Tokens;
    var pack := PackOf(candidates, target, opts);
    assert OmittedFor(pack, c, ScopeFiltered) || OmittedFor(pack, c, BelowTrustFloor)
        || OmittedFor(pack, c, BudgetExceeded) || InPack(pack, c);
  }

  /** A pack says what it was made for and within what; a packed item is its record's, with the excerpt and its cost; an
      omission names its record. */
  lemma PackTells(candidates: seq<Candidate>, target: Option<string>, opts: Options, c: Candidate,
                  reason: OmittedReason)
    ensures var pack := PackOf(candidates, target, opts);
            && pack.targetId == target && pack.budget == opts.maxTokens
            && pack.totalTokens == SaturatingAdd(SumTokens(pack.items), 0)
    ensures InPack(PackOf(candidates, target, opts), c) <==>
            exists x :: x in PackOf(candidates, target, opts).items && Describes(x, c, opts.maxTokens)
    ensures OmittedFor(PackOf(candidates, target, opts), c, reason) <==>
            OmittedEntry(c.record.id, c.record.kind, reason) in PackOf(candidates, target, opts).omitted
  {
    TotalIsSum(StableSort(candidates, Before), opts);
    hide Packed, SumTokens, SaturatingAdd, ExcerptFor;
  }

  predicate Describes(x: PackItem, c: Candidate, budget: nat) {
    && x.id == c.record.id && x.kind == c.record.kind && x.title == c.record.title
    && x.trust == c.trust && x.score == c.score && (x.excerpt, x.tokens) == ExcerptFor(c.record, budget)
  }

  lemma FilterIsNotBudget(c: Candidate, opts: Options)
    ensures Filtered(c, opts) != Some(BudgetExceeded)
  {
  }

  lemma {:induction false} RequiredConcat(a: seq<Candidate>, b: seq<Candidate>, opts: Options)
    ensures RequiredTokens(a + b, opts) == RequiredTokens(a, opts) + RequiredTokens(b, opts)
  {
    hide Filtered, Tokens;
    if b == [] {
      assert a + b == a;
    } else {
      assert (a + b)[..|a + b| - 1] == a + b[..|b| - 1];
      RequiredConcat(a, b[..|b| - 1], opts);
    }
  }

  lemma {:induction false} RequiredOfSort(s: seq<Candidate>, opts: Options)
    ensures RequiredTokens(StableSort(s, Before), opts) == RequiredTokens(s, opts)
  {
    hide Insert, Before, Filtered, Tokens;
    if s != [] {
      var n := |s| - 1;
      RequiredOfSort(s[..n], opts);
      var t := StableSort(s[..n], Before);
      var k := InsertSplits(t, s[n], Before);
      assert t[..k] + t[k..] == t && s[..n] + [s[n]] == s;
      hide RequiredTokens;
      RequiredConcat(t[..k] + [s[n]], t[k..], opts);
      RequiredConcat(t[..k], [s[n]], opts);
      RequiredConcat(t[..k], t[k..], opts);
      RequiredConcat(s[..n], [s[n]], opts);
    }
  }

  /** What a pack may cost. */
  lemma PackFits(candidates: seq<Candidate>, target: Option<string>, opts: Options)
    ensures PackOf(candidates, target, opts).totalTokens <= opts.maxTokens
            || PackOf(candidates, target, opts).totalTokens <= RequiredTokens(candidates, opts)
    ensures PackOf(candidates, target, opts).totalTokens ==
            SaturatingAdd(SumTokens(PackOf(candidates, target, opts).items), 0)
    ensures |PackOf(candidates, target, opts).items| + |PackOf(candidates, target, opts).omitted| == |candidates|
  {
    hide Packed, Before, RequiredTokens, RequiredFirst, Accounted;
    var cs := StableSort(candidates, Before);
    BeforeIsTotal();
    StableSortSorted(candidates, Before);
    SortedRequiredFirst(cs);
    TotalIsBounded(cs, opts);
    RequiredOfSort(candidates, opts);
    TotalIsSum(cs, opts);
    PackedAccounted(cs, opts);
  }

  /** As soon as one optional record is in the pack, the whole pack is within the budget. */
  lemma OptionalMeansWithin(candidates: seq<Candidate>, target: Option<string>, opts: Options, c: Candidate)
    requires DistinctIds(candidates) && c in candidates && !c.provenance.IsRequired()
    requires InPack(PackOf(candidates, target, opts), c)
    ensures PackOf(candidates, target, opts).totalTokens <= opts.maxTokens
  {
    hide Packed, Before, RequiredTokens, RequiredFirst, Accounted, ItemOf, EntryOf;
    var cs := StableSort(candidates, Before);
    BeforeIsTotal();
    StableSortSorted(candidates, Before);
    SortedRequiredFirst(cs);
    TotalIsBounded(cs, opts);
    var i := SortedCandidates(candidates, c);
    VerdictInPack(cs, opts, i, BudgetExceeded);
  }

  lemma {:induction false} ItemsGrow(cs: seq<Candidate>, opts: Options, i: nat)
    requires i <= |cs|
    ensures Packed(cs[..i], opts).items <= Packed(cs, opts).items
    decreases |cs|
  {
    hide Verdict, Tokens, ItemOf;
    if i < |cs| {
      ItemsGrow(cs[..|cs| - 1], opts, i);
      assert cs[..|cs| - 1][..i] == cs[..i];
    } else {
      assert cs[..i] == cs;
    }
  }

  /** The packing is greedy: an optional record gets in exactly if it fits behind the items of those ranked before
      it. */
  lemma PackIsGreedy(cs: seq<Candidate>, opts: Options, i: nat)
    requires DistinctIds(cs) && i < |cs| && Optional(cs[i]) && InScope(cs[i], opts) && Trusted(cs[i], opts)
    ensures Packed(cs[..i], opts).items <= Packed(cs, opts).items
    ensures ItemOf(cs[i], opts.maxTokens) in Packed(cs, opts).items <==>
            SaturatingAdd(SumTokens(Packed(cs[..i], opts).items), Tokens(cs[i], opts)) <= opts.maxTokens
  {
    ItemsGrow(cs, opts, i);
    TotalIsSum(cs[..i], opts);
    VerdictInPack(cs, opts, i, BudgetExceeded);
    FilteredIs(cs[i], opts);
    hide Packed, Filtered, ItemOf, InScope, Trusted;
  }

  /** The routes from near to far: the task, its relations, what the search found, the scope. */
  predicate Closer(p: Provenance, q: Provenance) {
    || (p == Target && q != Target)
    || (p == StructuralRelation && (q == QueryHit || q == SameScope))
    || (p == QueryHit && q == SameScope)
  }

  /** Strictly ahead: closer to the target, or better scored, or of an id with smaller bytes. */
  predicate Ahead(a: Candidate, b: Candidate) {
    || Closer(a.provenance, b.provenance)
    || (a.provenance == b.provenance && a.score > b.score)
    || (a.provenance == b.provenance && a.score == b.score
        && a.record.id != b.record.id && BytesLe(Encode(a.record.id), Encode(b.record.id)))
  }

  lemma AheadIsEarlier(cs: seq<Candidate>, i: nat, j: nat)
    requires Sorted(cs, Before) && i < |cs| && j < |cs| && Ahead(cs[i], cs[j])
    ensures i < j
  {
    BytesOrderStrings(cs[i].record.id, cs[j].record.id);
    hide LexLe, BytesLe, Encode;
    if j < i {
      assert Before(cs[j], cs[i]);
      if LexLe(cs[j].record.id, cs[i].record.id) && LexLe(cs[i].record.id, cs[j].record.id) {
        LexAntisymmetric(cs[i].record.id, cs[j].record.id);
      }
    }
  }

  /** Of two packed records the one ahead stands first. */
  lemma PackInOrder(candidates: seq<Candidate>, target: Option<string>, opts: Options, a: Candidate, b: Candidate)
    returns (i: nat, j: nat)
    requires DistinctIds(candidates) && a in candidates && b in candidates && Ahead(a, b)
    requires InPack(PackOf(candidates, target, opts), a) && InPack(PackOf(candidates, target, opts), b)
    ensures var items := PackOf(candidates, target, opts).items;
            i < j < |items| && items[i] == ItemOf(a, opts.maxTokens) && items[j] == ItemOf(b, opts.maxTokens)
  {
    hide Packed, Before, Ahead, ItemOf, Verdict, DistinctIds;
    var cs := StableSort(candidates, Before);
    BeforeIsTotal();
    StableSortSorted(candidates, Before);
    var x := SortedCandidates(candidates, a);
    var y := SortedCandidates(candidates, b);
    AheadIsEarlier(cs, x, y);
    VerdictInPack(cs, opts, x, BudgetExceeded);
    VerdictInPack(cs, opts, y, BudgetExceeded);
    i, j := ItemPositions(cs, opts, x, y);
  }

  /** A kept item stands behind the items of the candidates before it. */
  lemma ItemPosition(cs: seq<Candidate>, opts: Options, x: nat)
    requires x < |cs| && KeptAt(cs, opts, x)
    ensures Packed(cs[..x + 1], opts).items == Packed(cs[..x], opts).items + [ItemOf(cs[x], opts.maxTokens)]
    ensures Packed(cs[..x + 1], opts).items <= Packed(cs, opts).items
  {
    hide Verdict, Tokens, ItemOf;
    ItemsGrow(cs, opts, x + 1);
    assert cs[..x + 1][..x] == cs[..x];
  }

  lemma ItemPositions(cs: seq<Candidate>, opts: Options, x: nat, y: nat) returns (i: nat, j: nat)
    requires x < y < |cs| && KeptAt(cs, opts, x) && KeptAt(cs, opts, y)
    ensures var items := Packed(cs, opts).items;
            i < j < |items| && items[i] == ItemOf(cs[x], opts.maxTokens) && items[j] == ItemOf(cs[y], opts.maxTokens)
  {
    hide KeptAt, Packed, ItemOf;
    ItemPosition(cs, opts, x);
    ItemPosition(cs, opts, y);
    ItemsGrow(cs[..y], opts, x + 1);
    assert cs[..y][..x + 1] == cs[..x + 1];
    i, j := |Packed(cs[..x], opts).items|, |Packed(cs[..y], opts).items|;
  }
}
