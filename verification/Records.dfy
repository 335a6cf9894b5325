/** Records, history entries and the symbolic state hash
    (crates/ft-core/src/record.rs, label.rs, acceptance.rs, enums.rs and hash.rs). */
module Records {
  import opened Wrappers

  const U32_MAX: int := 0xFFFF_FFFF

  type U32 = n: int | 0 <= n <= 0xFFFF_FFFF

  /** Canonical identities are strings, instants are whole ticks since the epoch. */
  type Identity = string
  type Timestamp = int

  datatype RecordKind =
    | Epic | Task | Subtask | Bug | Incident | Finding | Runbook | Decision | Gotcha | Memory | Doc | RepoProfile
  {
    /** The uppercase prefix of a record id. */
    function Prefix(): string {
      match this
      case Task => "TASK"
      case Epic => "EPIC"
      case Bug => "BUG"
      case Subtask => "SUB"
      case Incident => "INC"
      case Finding => "FIND"
      case Runbook => "RUN"
      case Decision => "DEC"
      case Gotcha => "GOTCHA"
      case Memory => "MEM"
      case Doc => "DOC"
      case RepoProfile => "PROFILE"
    }
  }

  datatype Status = Open | Ready | InProgress | Review | Blocked | Closed | Deferred | Archived
  datatype Priority = P0 | P1 | P2 | P3 | P4
  datatype Origin = Human | Agent | Imported

  datatype TrustState =
    | Draft | Reviewed | Verified | Stale | Deprecated | ArchivedTrust | Rejected | Superseded | Redacted

  datatype RelationKind =
    | Blocks | BlockedBy | ParentOf | ChildOf | RelatedTo | Duplicates | Supersedes | DiscoveredDuring | FollowUpFrom
    | FixedBy | CausedBy | MitigatedBy | DocumentedIn | ImplementedBy | RegressedBy | Affects | OwnedBy

  /** The key of a row of the relation table. */
  datatype Edge = Edge(from: string, to: string, kind: RelationKind)

  datatype Label = Label(key: string, value: string)

  datatype AcStatus = Unchecked | Checked

  datatype AcceptanceCriterion = AcceptanceCriterion(
    id: string, text: string, status: AcStatus, evidenceUrl: Option<string>, checkedBy: Option<Identity>,
    checkedAt: Option<Timestamp>, createdAt: Timestamp, updatedAt: Timestamp, proposed: bool)

  /** An attached artefact; only its local id is looked at. */
  datatype Evidence = Evidence(id: string, payload: string)

  datatype Claim = Claim(claimedBy: Identity, claimedAt: Timestamp, claimSource: string, claimExpiresAt: Timestamp)

  datatype Body =
    | EpicBody(description: string, childIds: seq<string>)
    | TaskBody(description: string, parentEpic: Option<string>, criteria: seq<AcceptanceCriterion>,
               evidence: seq<Evidence>, claim: Option<Claim>)
    | SubtaskBody(description: string, parentTask: string, criteria: seq<AcceptanceCriterion>,
                  evidence: seq<Evidence>, claim: Option<Claim>)
    | BugBody(description: string, service: Option<string>, severity: Option<string>,
              criteria: seq<AcceptanceCriterion>, evidence: seq<Evidence>, claim: Option<Claim>)
    // The eight memory kinds: trust state, the text an excerpt is cut from, and everything else.
    | KnowledgeBody(trust: TrustState, excerptText: string, payload: string)

  /** The acceptance criteria of the bodies that have any. */
  function CriteriaOf(b: Body): seq<AcceptanceCriterion> {
    if b.TaskBody? || b.SubtaskBody? || b.BugBody? then b.criteria else []
  }

  /** Everything in a record except its history and its two hash fields. */
  datatype Content = Content(
    id: string, kind: RecordKind, title: string, status: Status, priority: Priority, owner: Option<Identity>,
    createdBy: Identity, createdAt: Timestamp, updatedAt: Timestamp, closedAt: Option<Timestamp>,
    owningScope: Option<string>, affectedScopes: seq<string>, appliesTo: seq<string>, labels: seq<Label>,
    origin: Origin, body: Body)

  datatype Transition = Trust(from: TrustState, to: TrustState, evidenceCount: U32)

  datatype HistoryEntry = HistoryEntry(
    mergedViaPr: Option<nat>, timestamp: Timestamp, primaryActor: Identity, contributors: seq<Identity>,
    opsSummary: seq<string>, opsCount: U32, fromHash: Hash, toHash: Hash, transition: Option<Transition>)
  {
    /** The entry with both hash fields cleared: what it says, without where it sits in a chain. */
    function Bare(): HistoryEntry {
      this.(fromHash := Empty, toHash := Empty)
    }
  }

  /** A hash field: the empty string, the digest of one record value with its own two hash fields
      removed, or some other text that no digest produces. Digests of different values differ. */
  datatype Hash =
    | Empty
    | Digest(content: Content, history: seq<HistoryEntry>)
    | Foreign(tag: nat)

  /** The value of a record at one moment. */
  datatype RecordState = RecordState(
    content: Content, history: seq<HistoryEntry>, stateHash: Hash, prevStateHash: Option<Hash>)

  /** `state_hash`: the record without `state_hash` and `prev_state_hash`, digested. */
  function StateHash(r: RecordState): Hash {
    Digest(r.content, r.history)
  }

  /** A history whose last entry has its `to_hash` cleared. */
  function OpenTail(h: seq<HistoryEntry>): (r: seq<HistoryEntry>)
    ensures |r| == |h|
  {
    if h == [] then [] else h[..|h| - 1] + [h[|h| - 1].(toHash := Empty)]
  }

  function BareAll(h: seq<HistoryEntry>): (r: seq<HistoryEntry>)
    ensures |r| == |h| && forall i :: 0 <= i < |h| ==> r[i] == h[i].Bare()
  {
    seq(|h|, i requires 0 <= i < |h| => h[i].Bare())
  }

  lemma BareAllConcat(a: seq<HistoryEntry>, b: seq<HistoryEntry>)
    ensures BareAll(a + b) == BareAll(a) + BareAll(b)
  {
  }

  /** `from_hash` of the entry that would follow `h`. */
  function ChainHead(h: seq<HistoryEntry>): Hash {
    if h == [] then Empty else h[|h| - 1].toHash
  }

  function PrevPointer(from: Hash): Option<Hash> {
    if from == Empty then None else Some(from)
  }

  /** A freshly built record: no history yet, hash of the body. */
  function Built(c: Content): RecordState {
    RecordState(c, [], Digest(c, []), None)
  }

  /** A record being edited in place. */
  class Record {
    var content: Content
    var history: seq<HistoryEntry>
    var stateHash: Hash
    var prevStateHash: Option<Hash>

    ghost function State(): RecordState
      reads this
    {
      RecordState(content, history, stateHash, prevStateHash)
    }

    /** `Record::clone`. */
    constructor (s: RecordState)
      ensures State() == s
    {
      content, history, stateHash, prevStateHash := s.content, s.history, s.stateHash, s.prevStateHash;
    }

    /** `RecordBuilder::build`: an empty hash first, then the hash of the finished record. */
    constructor Build(c: Content)
      ensures State() == Built(c)
    {
      content, history, stateHash, prevStateHash := c, [], Empty, None;
      new;
      stateHash := StateHash(Current());
    }

    /** The record's value, for hashing. */
    function Current(): (s: RecordState)
      reads this
      ensures s == State()
    {
      RecordState(content, history, stateHash, prevStateHash)
    }
  }
}
