# Verified model of the record store

This project models the parts of a git-native work tracker that keep an append-only audit chain inside every
record, and the machinery around them, and proves what they promise:

- **The audit chain.** A record carries history entries linked by `from_hash` and `to_hash`. `Append`, `Compact`,
  `Relink` and `Merge` write it, `Verify` decides whether it is valid, `Commitment` says what its hashes commit to,
  `CompactProperties` and `SquashProperties` say what compaction keeps, `CapProperties` what a cap costs, `HistoryMerge`,
  `CriteriaMerge`, `BodyMerge` and `MergeSymmetry` what the three-way merge does. `Workspace` has the write steps, `Runs`
  what is true of every record they can reach, `Remerge` what merging the same side again, or after a compaction,
  does.
- **The canonical text** under the state hash and its bytes (`CanonicalJson`, `CanonicalInjective`, `Utf8`), and a reader
  for it written from the RFC (`JsonReader`).
- **Short ids** (`Id`).
- **The index** as tables: `Index` has rebuild and refresh, `ChildTables` says what a record leaves in them, `Refresh`
  when the two agree, `Structure` what becomes of the edges records imply, `Ready` has the query and the walks over
  mirrored tables, `Walk` the breadth-first walk.
- **Context packs** under a token budget (`Select`, `Prime`).
- **The embedding cache** (`EmbedCache`, `EmbedService`).
- `Records`, `Kind`, `Text`, `Sorting` and `Wrappers` hold what the others share.

Code that works in place is a class or a method with loops, proved against a function of the old state; the laws are
lemmas about those functions. `dafny verify dfyconfig.toml` checks everything.

How things are represented:

- SHA-256 is symbolic: a digest is the value it was computed from, so different values have different digests. A
  digest inside an entry is of an earlier state, so the symbolic values are finite trees. BLAKE3 is
  stood for by one concrete function, the hex text of the message; the proofs use only that it is injective and, in
  `KeysWithoutZero`, that its results hold no zero byte.
- Instants are whole ticks and durations whole numbers of them. 32-bit counters and 64-bit sizes saturate where the
  code saturates.
- Storage is a map from id to record; a disk adds file ages and the relation log. Paths are where storage keeps a
  record, other places whose name spells an id, or names that spell none. That a record file holds a record of its own
  id is assumed: reading it does not check that.
- The tables of the index are maps from primary key to row, the six child tables in one map with a tagged key. A
  transaction that fails puts the old tables back.
- Sets stand for rows whose order SQL leaves open; methods that read them pick any order.
- Scores are real numbers, the recency factor is a given function.
- The embedder is a given function of model and text; a float is its 32 bits.

Where the code and its comments disagree, the model follows the code:

- The overflow pass absorbs the entry after the first eligible one whatever its kind (`crates/ft-history/src/compact.rs:149`),
  although the comment above it speaks of eligible entries only. `CompactionKeepsCriticalsExactly`
  and `CompactionKeepsCreditsExactly` say exactly when nothing is lost.
- `verify_chain` recomputes only the last `to_hash`; the others are checked through links.
- `merge_records` ignores the base for history and criteria, so deletions and unchecks come back
  (`NothingIsTakenBack`), and a second merge of the same branch can repeat its entries (`RenameMakesRemergeRepeat`;
  `RemergeAddsNothing` and `RemergedRecord` say exactly when it does not).
- An incremental refresh does not restore edges that other records imply (`SubtaskEdgeIsLost`).
- Context packs follow relations of every kind, although the comment lists structural ones
  (`crates/ft-prime/src/select.rs:46-47`).
- The zero separators of the cache checksum do not rule out every ambiguity: keys with zero bytes can share a checksum
  (`ZeroBytesCollide`; `ChecksumsCanMeet` says exactly which keys can).

## Model

| member | source | states |
|---|---|---|
| Kind.TagRoundTrip | crates/ft-history/src/kind.rs:44-73 | A tag reads back as a kind if and only if it is the tag that kind writes. |
| Append.EntryKindReadsBack | crates/ft-history/src/append.rs:65-113 | Whatever summary lines a draft carries, the stored entry reads back the drafted kind, and only the first line is touched. |
| Append.DraftIsCarried | crates/ft-history/src/append.rs:65-100 | Every field of the draft is in the stored entry; its first line is the drafted one, behind the tag of the kind exactly if it does not start with that tag, and a note stands for no lines. No other entry carries the draft but for its hashes. |
| Append.TaggedLineIsRead | crates/ft-history/src/append.rs:107-113 | A stored line with one of the nine tags in front is read as of that kind, whatever follows. |
| Append.AppendHistory | crates/ft-history/src/append.rs:127-175 | The in-place writer leaves exactly the record with one more entry, which carries the draft field by field, starts where the chain ended and commits to content and history; a draft of zero operations is refused and changes nothing. |
| Verify.VerifyAcceptsExactlyIntact | crates/ft-history/src/verify.rs:34-121 | The checker accepts a record if and only if every entry starts where the one before ended, the envelope points at the tail, and envelope and tail hashes are those of the record. |
| Verify.VerifyReports | crates/ft-history/src/verify.rs:34-121 | Each violation is reported if and only if it is there and none that is looked for earlier is, with the hashes, pointer or index found. |
| Verify.BrokenLinkIsFirst | crates/ft-history/src/verify.rs:62-73 | A reported broken link is the first one: the chain is linked up to it and no further. |
| Verify.AppendedVerifies | crates/ft-history/src/append.rs:127-175 | After an append the record verifies if and only if the history before was linked, whatever else was edited. |
| Verify.StateHashDeterminesRecord | crates/ft-history/src/verify.rs:93-102 | Two verified records with the same state hash are identical in every field. |
| Verify.TailHashDeterminesRecord | crates/ft-history/src/verify.rs:104-118 | The hash of the last entry alone determines a verified record. |
| Compact.MergeEntry | crates/ft-history/src/compact.rs:171-198 | The field-by-field merge of one entry into another equals the merge function: latest time, later PR, new contributors except the primary actor, new lines, saturating count. |
| Compact.SquashOne | crates/ft-history/src/compact.rs:113-131 | One turn of the squash loop either merges into the last kept entry, under exactly the guard of the code, or keeps the entry. |
| Compact.Squash | crates/ft-history/src/compact.rs:108-131 | The loop yields the squashed history and one drop report per entry merged away. |
| Compact.Overflow | crates/ft-history/src/compact.rs:136-153 | The loop ends on every input and yields the closed form: with first eligible index k, length max(cap, k + 1), entry k the left fold over the block absorbed, all else unchanged; nothing changes without an eligible entry. |
| Compact.BucketStaysFirst | crates/ft-history/src/compact.rs:140-147 | An entry that takes others in stays the first eligible one, so every turn of the loop works on the same index. |
| Compact.FoldKeepsKind | crates/ft-history/src/compact.rs:171-198 | Taking entries in changes neither the kind nor the primary actor of the entry that takes them. |
| Compact.RelinkChain | crates/ft-history/src/compact.rs:205-273 | Overwriting the hashes index by index leaves the relinked record: every entry hashed again from the head on, and the envelope with it. |
| Compact.CompactHistory | crates/ft-history/src/compact.rs:93-166 | The record and the report after compaction, for every policy; histories of at most one entry are left alone. |
| Relink.RelinkedShape | crates/ft-history/src/compact.rs:205-273 | Relinking changes nothing but hashes, and every entry then commits to the content and to all entries up to itself. |
| Relink.HashedForUnique | crates/ft-history/src/compact.rs:220-251 | There is only one way to hash given entries against given content. |
| Relink.RelinkIsCanonical | crates/ft-history/src/compact.rs:205-273 | Two histories relink to the same one if and only if they agree outside the hash fields, and the result is the only history hashed that way. |
| Relink.RelinkIsIdempotent | crates/ft-history/src/compact.rs:205-273 | Relinking twice is relinking once. |
| Relink.RelinkedVerifies | crates/ft-history/src/compact.rs:205-273 | Any record at all verifies once relinked. |
| CompactProperties.ShortenedCollapses | crates/ft-history/src/compact.rs:108-153 | Both compaction passes only ever merge an entry with its neighbour; without a cap only entries of one primary actor. |
| CompactProperties.MergeConserves | crates/ft-history/src/compact.rs:171-198 | One merge keeps the lines of both entries, their credits except possibly the absorbed primary actor, the later time, and the sum of counts while it fits in 32 bits. |
| CompactProperties.CollapsesConserve | crates/ft-history/src/compact.rs:108-153 | Any sequence of neighbour merges conserves lines, latest time, order of times and, while it fits, the sum of counts; credits too when the merged actors agree. |
| CompactProperties.CompactionConserves | crates/ft-history/src/compact.rs:93-166 | Under every policy compaction conserves the operation count that fits in 32 bits, the set of summary lines, the latest time and nondecreasing times; the report counts what was dropped; without a cap every credited identity stays. |
| SquashProperties.RunsOfMaximal | crates/ft-history/src/compact.rs:110-131 | Every partition into maximal runs is the one the left-to-right reading finds. |
| SquashProperties.SquashRefinesRuns | crates/ft-history/src/compact.rs:110-131 | The loop squashes each maximal run to one entry and keeps every other entry. |
| SquashProperties.SquashIsMaximalRuns | crates/ft-history/src/compact.rs:110-131 | There is exactly one partition into maximal runs (updates of one actor, each within the window of the latest time so far), and squashing maps each run of it to its fold. |
| SquashProperties.SquashKeepsCriticals | crates/ft-history/src/compact.rs:110-131 | The squash pass keeps every entry that is not a plain update, in order and unchanged. |
| SquashProperties.CapSwallowsClose | crates/ft-history/src/compact.rs:149 | With a cap, a close entry behind an update is absorbed although its kind is preserved, and its actor can lose credit. |
| CapProperties.FoldLeaves | crates/ft-history/src/compact.rs:171-198 | An entry that takes a block in says the same as before if and only if the block is no later, names no one new, says nothing new, counts nothing new and ends on no other pull request. |
| CapProperties.CapIsReached | crates/ft-history/src/compact.rs:136-153 | The overflow pass reaches the cap if and only if the history fits already, or one of the entries within the cap is an update, preserved or not, or of a known kind that is not preserved. |
| CapProperties.ReportTells | crates/ft-history/src/compact.rs:108-166 | The report lists one squashed update for each entry beyond one a run, then one bucketed entry for each the cap took away. |
| CapProperties.OverflowKeepsCriticals | crates/ft-history/src/compact.rs:136-153 | The overflow pass keeps the entries that are not plain updates, in order and up to hashes, if and only if it absorbs updates only, and into an update or without changing the entry that absorbs. |
| CapProperties.CompactionKeepsCriticalsExactly | crates/ft-history/src/compact.rs:93-166 | The same for the whole compaction, under every policy: the condition is on the squashed history. |
| CapProperties.CapRewritesClose | crates/ft-history/src/compact.rs:149-150 | With a cap of one and no preserved kinds, a close entry that absorbs an update is rewritten, although the number of such entries stays. |
| CapProperties.FoldHelpers | crates/ft-history/src/compact.rs:171-198 | A bucket credits its own identities and the contributors of what it absorbed, not their primary actors. |
| CapProperties.OverflowKeepsCredits | crates/ft-history/src/compact.rs:136-153 | The overflow pass keeps every credited identity if and only if every primary actor it absorbs is credited elsewhere. |
| CapProperties.CompactionKeepsCreditsExactly | crates/ft-history/src/compact.rs:93-166 | The same for the whole compaction, under every policy. |
| CapProperties.FoldCounts | crates/ft-history/src/compact.rs:171-198 | A bucket counts its own operations and those of what it absorbed, up to what 32 bits hold. |
| CapProperties.OverflowKeepsCount | crates/ft-history/src/compact.rs:136-153 | The overflow pass keeps the total operation count if and only if the bucket and what it absorbs count no more than 32 bits hold, and never raises it. |
| CapProperties.SquashKeepsCount | crates/ft-history/src/compact.rs:108-131 | The squash pass keeps it if and only if each maximal run counts no more than 32 bits hold. |
| CapProperties.CompactionKeepsCountExactly | crates/ft-history/src/compact.rs:93-166 | The whole compaction keeps it, under every policy, if and only if both passes do. |
| CapProperties.BucketContinues | crates/ft-history/src/compact.rs:113-153 | A bucket takes in the next entry if and only if that is an update of the actor of the bucket, itself an update, within the window of the latest time absorbed, and updates are not preserved. |
| CapProperties.CompactionStabilises | crates/ft-history/src/compact.rs:93-166 | Compacting twice under one policy is compacting once, with an empty second report, if and only if nothing was absorbed, nothing stands behind, or the entry behind does not continue those absorbed; so always without a cap. |
| CapProperties.UncappedStabilises | crates/ft-history/src/compact.rs:93-166 | Without a cap, compacting twice is compacting once, and the second report is empty. |
| CapProperties.TwoPassesNeeded | crates/ft-history/src/compact.rs:93-166 | Two actors in turn under a cap of two: the second compaction changes what the first one left. |
| Runs.CapNeedsTwoPasses | crates/ft-history/src/compact.rs:93-166 | Such a run under the default kinds: three edits less than an hour apart, compacted twice. |
| Commitment.CommitmentIsPrefix | crates/ft-history/src/append.rs:140-172 | In committed histories, entries share a hash only at the same index and with identical histories up to there. |
| Commitment.AppendedCommits | crates/ft-history/src/append.rs:140-172 | Appending keeps a history committed. |
| Commitment.HashedForCommits | crates/ft-history/src/compact.rs:220-251 | A relinked history is committed. |
| Sorting.StableSortSorted | crates/ft-pr/src/merge.rs:249-251 | The result of the sort is in order. |
| Sorting.StableSortKeeps | crates/ft-pr/src/merge.rs:249-251 | The sort neither loses nor adds elements. |
| Sorting.StableSortStable | crates/ft-pr/src/merge.rs:249-251 | Elements that compare equal keep their order. |
| Sorting.StableSortUnique | crates/ft-pr/src/merge.rs:249-251 | Order and stability determine the result: there is one stable sort. |
| Sorting.SortKeepsFront | crates/ft-pr/src/merge.rs:249-251 | A sorted front that nothing behind it precedes stays in front. |
| Merge.MergeScalar | crates/ft-pr/src/merge.rs:196-238 | One field merged by the three-way rule, with a conflict pushed exactly when both sides moved to different values. |
| BodyMerge.ConflictsAre | crates/ft-pr/src/merge.rs:94-238 | Each of the six fields is listed as a conflict, once, if and only if both sides left the base for different values; it then shows the base, if there is one, our value, which the merged record keeps, and theirs. Nothing else is listed. |
| BodyMerge.MergedFieldsAre | crates/ft-pr/src/merge.rs:111-192 | The six fields are theirs where ours left the base alone and ours otherwise, the update time is the later one, and everything else but the criteria is ours. |
| Merge.MergeHistory | crates/ft-pr/src/merge.rs:240-253 | Union by `to_hash`, first occurrence kept, stably sorted by time. |
| Merge.MergeCriteria | crates/ft-pr/src/merge.rs:287-312 | Criteria merged by text: ours first, unchecked ones taking over a check of theirs, new texts appended. |
| BodyMerge.MergedBodyIs | crates/ft-pr/src/merge.rs:255-285 | The merged body is ours in everything but the criteria, and those are merged exactly between two work items of one kind; nothing else is such a body. |
| BodyMerge.MergedRecordJoins | crates/ft-pr/src/merge.rs:255-312 | For every text the merged record shows the join of what ours shows and all that theirs holds when both are work items of one kind, and what ours shows otherwise. |
| BodyMerge.MergedRecordKeepsChecks | crates/ft-pr/src/merge.rs:255-312 | Every text checked in either record is checked in the merged one if and only if both are work items of one kind or ours has every check of theirs. |
| BodyMerge.MergedRecordsShowTheSame | crates/ft-pr/src/merge.rs:255-312 | With distinct texts on each side, swapping ours and theirs leaves what the merged record shows for every text if and only if both are work items of one kind or showed the same to begin with. |
| BodyMerge.NothingIsTakenBack | crates/ft-pr/src/merge.rs:287-312 | Deletions and unchecks come back: a text is gone from the merged record if and only if neither side has it, and unchecked if and only if ours shows no check of it and theirs holds none. |
| BodyMerge.BaseDecidesFieldsOnly | crates/ft-pr/src/merge.rs:111-192 | The base decides the six fields; history, up to hashes, and body do not depend on it. |
| BodyMerge.ContentRemerge | crates/ft-pr/src/merge.rs:94-194 | Merging the same side into a merged content again, against any base, changes nothing in it if and only if no field of that base equals the merged value while theirs differs; repeated criteria texts included. |
| BodyMerge.SteadyBases | crates/ft-pr/src/merge.rs:94-194 | The base of the first merge, no base, and the merged side itself are such bases. |
| Merge.MergeScalars | crates/ft-pr/src/merge.rs:113-164 | The six fields and the list of conflicts, in order. |
| Merge.MergeRecords | crates/ft-pr/src/merge.rs:94-194 | The whole merge, with its two refusals, as a function of base, ours and theirs. |
| HistoryMerge.CommonPrefixIsLongest | crates/ft-pr/src/merge.rs:240-253 | The common prefix is the longest one. |
| HistoryMerge.DuplicateIffInPrefix | crates/ft-pr/src/merge.rs:240-248 | An entry of theirs is dropped as a duplicate if and only if it lies in the common prefix. |
| HistoryMerge.MergeDropsCommonPrefix | crates/ft-pr/src/merge.rs:240-248 | Dedupe of two committed histories is ours followed by theirs without the common prefix. |
| HistoryMerge.MergedHistoryIs | crates/ft-pr/src/merge.rs:240-253 | The merged history is the one rearrangement of that union that is sorted by time and stable, and nothing else is. |
| HistoryMerge.MergedHistoryCounts | crates/ft-pr/src/merge.rs:240-253 | Length and total operation count are the two sums minus those of the common prefix. |
| HistoryMerge.CommonPrefixStaysInFront | crates/ft-pr/src/merge.rs:240-253 | The common prefix stays in front if and only if its times are in order and none is later than a time behind it. |
| CriteriaMerge.MergeJoins | crates/ft-pr/src/merge.rs:287-312 | For every text the merged view is the join of what ours shows and everything theirs holds, repeated texts included. |
| CriteriaMerge.MergeTexts | crates/ft-pr/src/merge.rs:287-312 | The texts are ours in order, then those new in theirs, each once. |
| CriteriaMerge.MergeKeepsOurs | crates/ft-pr/src/merge.rs:287-312 | Every criterion of ours keeps its place, id and text, and loses no check. |
| CriteriaMerge.MergeChecksHaveWitness | crates/ft-pr/src/merge.rs:287-312 | A merged status comes with the evidence, checker and time of one criterion of a side; none is mixed together. |
| CriteriaMerge.CheckedNeverLost | crates/ft-pr/src/merge.rs:287-312 | A check on either side is in the result, repeated texts included. |
| CriteriaMerge.MergeIsJoin | crates/ft-pr/src/merge.rs:287-312 | With distinct texts on each side the view from text to check and time is the pointwise join. |
| CriteriaMerge.MergeIsSemilattice | crates/ft-pr/src/merge.rs:287-312 | Hence commutative, associative and idempotent in that view. |
| MergeSymmetry.ConflictsSymmetric | crates/ft-pr/src/merge.rs:94-194 | Swapping the sides gives the same conflicts with their sides swapped, in the same order. |
| MergeSymmetry.ScalarsSymmetric | crates/ft-pr/src/merge.rs:113-164 | Off the conflicts the six fields do not depend on which side is ours. |
| MergeSymmetry.ScalarThreeWay | crates/ft-pr/src/merge.rs:196-238 | The three-way table: an untouched side gives way, equal changes agree, different changes conflict and keep ours; without a base any difference conflicts. |
| MergeSymmetry.SwappedSorts | crates/ft-pr/src/merge.rs:249-251 | Two parts behind a common front sort the same either way round if and only if at every instant their entries read the same either way round. |
| MergeSymmetry.HistoriesSymmetric | crates/ft-pr/src/merge.rs:240-253 | Swapping the sides keeps the multiset of entries, and the sequence if and only if no entry one side added is of the same instant as one the other added. |
| MergeSymmetry.MergedRecordsSymmetric | crates/ft-pr/src/merge.rs:94-194 | The merged records say the same things, up to hashes, and in the same order if and only if at every instant what the two sides added reads the same either way round; so always without ties between the sides. |
| MergeSymmetry.ErrorsSymmetric | crates/ft-pr/src/merge.rs:99-108 | A merge is refused exactly for different ids or else for different kinds, with the error that says so, and the same way from both sides. |
| Workspace.Storage.Read | crates/ft-storage/src/embedded.rs:120-127 | Reading succeeds exactly for a stored record whose hash is not stale, and says which of the two failed. |
| Workspace.Storage.Write | crates/ft-storage/src/embedded.rs:144-184 | Writing stores the record under its id, or refuses a stale hash and changes nothing. |
| Workspace.PersistRecord | crates/ft-cli/src/context.rs:272-276 | The re-hash before the write makes the write succeed on every record. |
| Workspace.SaveRecordWithHistory | crates/ft-cli/src/context.rs:209-221 | Append then store; a refused draft changes nothing; a store of verified records stays one. |
| Workspace.SaveRecord | crates/ft-cli/src/context.rs:232-267 | Saving always succeeds, with a create entry on a fresh record and an update entry otherwise. |
| Workspace.SavedEntry | crates/ft-cli/src/context.rs:243-262 | The entry of a save: one line with kind and command, tagged as creation or update, by the actor, at the update time of the record, counting one. |
| Workspace.WithoutKeyIs | crates/ft-import/src/promote.rs:142-145 | Promotion removes every label with the quarantine key and no copy of any other. |
| Workspace.WithoutKeyConcat | crates/ft-import/src/promote.rs:142-145 | It works through the labels in order: what stays of two stretches is what stays of each, one after the other. |
| Workspace.PromoteRecord | crates/ft-import/src/promote.rs:127-171 | Promotion succeeds exactly on stored quarantined records, replaces only that record, and keeps the store verified. |
| Workspace.PromotedEntry | crates/ft-import/src/promote.rs:133-167 | The entry of a promotion: an update by the owner, or else the creator, that names the first import source; of the record only the labels of the quarantine key change. |
| Workspace.CompactRecord | crates/ft-storage/src/compact.rs:68-77 | Read, compact, write back: the stored record is the compacted one, and the store stays verified. |
| Runs.ReachedIsSound | crates/ft-history/src/verify.rs:34-121 | Whole-run safety: every record reachable by building, editing and appending, saving, compacting under any policy, merging with any base, and promoting verifies, and its hashes commit to prefixes. |
| Runs.ReachedHashesCommit | crates/ft-history/src/append.rs:140-172 | Entries of two reachable records share a hash if and only if they have the same index and the histories agree up to there. |
| Runs.SavedKind | crates/ft-cli/src/context.rs:232-267 | A save never fails on a reachable record, and its entry reads back as a creation if the history was empty and as an update otherwise. |
| Runs.CompactionKeepsCriticals | crates/ft-history/src/compact.rs:110-153 | A compaction that spares the critical entries keeps each of them, up to hashes. |
| Runs.UncappedSpares | crates/ft-history/src/compact.rs:136-153 | Every compaction of a run without caps spares them. |
| Runs.MergeKeepsEntries | crates/ft-pr/src/merge.rs:240-253 | A merge keeps every entry of both sides, up to hashes. |
| Runs.CriticalDraftsSurvive | crates/ft-history/src/compact.rs:110-153 | Over any run whose compactions spare the critical entries, capped or not, every draft of a kind other than update is in the history, equal up to its two hashes, and reads back the drafted kind. |
| Runs.CriticalDraftsAreCarried | crates/ft-history/src/compact.rs:110-153 | So some entry of the history carries every field of such a draft, its summary lines included. |
| Runs.ReachedMergeIsUnion | crates/ft-pr/src/merge.rs:240-253 | Merging two reachable records: length and operation count are the sums minus the shared prefix, and times are in order. |
| Remerge.RemergeAddsNothing | crates/ft-pr/src/merge.rs:240-253 | Merging the same side into a merged record again adds no entry if and only if all of its entries stand first in it and carry hashes of the content it now has. |
| Remerge.RemergedRecord | crates/ft-pr/src/merge.rs:94-194 | Whatever base the second merge has, the whole record stays as it is if and only if all entries of that side stand first in it with hashes of its content, and no field of that base equals the merged value while theirs differs. |
| Remerge.RemergedFromTip | crates/ft-pr/src/merge.rs:94-194 | Against the tip of the branch, which git takes once it is merged, against the base of the first merge or against none, the history alone decides. |
| Remerge.OtherBaseMovesTitle | crates/ft-pr/src/merge.rs:113-192 | Against ours as the base the title moves, although the history stays: two records without history and with different titles, merged first without a base. |
| Remerge.RemergeRepeats | crates/ft-pr/src/merge.rs:240-253 | Every entry of that side is repeated if and only if its first entry was hashed against another content or another entry stands first. |
| Remerge.RenameMakesRemergeRepeat | crates/ft-pr/src/merge.rs:240-253 | One branch renames a task, the other works on it: merging the second one in again repeats its entry. |
| Remerge.CompactionCostsMerge | crates/ft-pr/src/merge.rs:240-253 | After ours is compacted, under any policy, a merge repeats all of theirs if and only if the first entry of theirs was hashed against another content or is not the one compaction leaves first, and adds nothing if and only if all of theirs stands first and carries hashes of that content. |
| CanonicalJson.EncodeString | crates/ft-core/src/hash.rs:42-46 | Strings are written quoted and escaped character by character, as in section 7 of RFC 8259. |
| JsonReader.EscapeIsShortest | crates/ft-core/src/hash.rs:42-46 | The escape of a character is the shortest text a reader of section 7 of RFC 8259 takes for it: a pair whenever there is one and the character cannot stand for itself, and otherwise four digits, in lower case. |
| JsonReader.StringReadsBack | crates/ft-core/src/hash.rs:42-46 | Such a reader gives the string back from what is written, whatever follows. |
| CanonicalJson.KeysSorted | crates/ft-core/src/hash.rs:57-60 | The keys of an object in ascending order, each once. |
| CanonicalJson.KeysByBytes | crates/ft-core/src/hash.rs:57-60 | Ascending is by their bytes. |
| Utf8.BytesOrderStrings | crates/ft-core/src/hash.rs:57-60 | Sorting keys by code point is sorting them by bytes, as the code does, and different strings have different bytes (section 3 of RFC 3629). |
| Utf8.TextDecodes | crates/ft-core/src/hash.rs:42-46 | A decoder of section 3 of RFC 3629 gives the text back from its bytes. |
| CanonicalJson.WriteCanonical | crates/ft-core/src/hash.rs:36-74 | The recursive writer appends exactly the UTF-8 bytes of the canonical text of the value to the buffer. |
| JsonReader.ValueReadsBack | crates/ft-core/src/hash.rs:36-74 | A reader of RFC 8259 that accepts no whitespace gives every tree back from its canonical text, wherever it stands in a longer text. |
| JsonReader.CanonicalIsRead | crates/ft-core/src/hash.rs:28-74 | So the bytes written decode to a text that reads as the value, with nothing left over. |
| CanonicalInjective.EscapedUnambiguous | crates/ft-core/src/hash.rs:42-46 | Where an escaped string ends, and what it says, can be read back from any continuation. |
| CanonicalInjective.NumberUnambiguous | crates/ft-core/src/hash.rs:41 | A number token of section 6 of RFC 8259 ends where the text says it does. |
| CanonicalInjective.ValueUnambiguous | crates/ft-core/src/hash.rs:36-74 | No canonical text is a prefix of another value's in a place where values can stand. |
| CanonicalInjective.CanonicalIsInjective | crates/ft-core/src/hash.rs:36-74 | Two values have the same canonical text, and the same bytes, if and only if they are equal, objects taken as unordered maps. |
| CanonicalInjective.WriteHashed | crates/ft-core/src/hash.rs:105-113 | The bytes digested: the tree without the two hash fields, written to a fresh buffer. |
| CanonicalInjective.StateHashPreimage | crates/ft-core/src/hash.rs:105-115 | Two records hash the same bytes if and only if they agree outside the two hash fields. |
| CanonicalInjective.OnlyHashFieldsAreIgnored | crates/ft-core/src/hash.rs:105-115 | Two records with envelopes hash the same bytes if and only if they agree on everything besides `state_hash` and `prev_state_hash` in the envelope. |
| CanonicalInjective.HashFieldsAreIgnored | crates/ft-core/src/hash.rs:105-115 | Whatever the two hash fields hold, the bytes hashed are the same. |
| Id.PrefixRoundTrip | crates/ft-core/src/id.rs:56-90 | A kind prefix reads back as a kind if and only if it is the one that kind writes. |
| Id.DisplayLength | crates/ft-core/src/id.rs:213-232 | The length chosen is the least of at least six that separates the id from its peers, or all 64. |
| Id.UnambiguousDisplay | crates/ft-core/src/id.rs:213-232 | The growing loop yields that length. |
| Id.PeersSeparated | crates/ft-core/src/id.rs:213-232 | Separated means no other candidate of the kind starts with those characters. |
| Id.MatchingCounts | crates/ft-core/src/id.rs:346-361 | The prefix scan finds every copy of the id, and nothing else exactly when the id is separated. |
| Id.ResolveShort | crates/ft-core/src/id.rs:302-373 | What resolving a short form does: the fast path for the full length, the scan for any other. |
| Id.ShortResolves | crates/ft-core/src/id.rs:302-373 | A short form resolves to its id if and only if it is the full id, or it separates the id and the candidates list the id once. |
| Id.DisplayResolves | crates/ft-core/src/id.rs:302-373 | The display form resolves to its id if and only if it is the full id or the id is listed once. |
| Id.ResolvesWhatIsNamed | crates/ft-core/src/id.rs:302-373 | Any input that is not a full id, in any case and with or without a kind, resolves to the one candidate it names; several named are all reported as ambiguous, none is an error. |
| Id.ResolveErrors | crates/ft-core/src/id.rs:302-373 | Which error: nothing given, a kind and nothing more, in which case the kind is told, or the trimmed input as unknown. |
| Id.HexDigitsAre | crates/ft-core/src/id.rs:341-345 | The digits of a hash, and that capitals are accepted for them. |
| Id.LongerShortResolves | crates/ft-core/src/id.rs:193-202 | For an id listed once, every longer short form resolves too. |
| Id.DisplaysDiffer | crates/ft-core/src/id.rs:213-232 | Different candidates have different display forms. |
| Id.FastPathAgrees | crates/ft-core/src/id.rs:308-315 | The full-id fast path agrees with the scan if and only if the id is not listed twice. |
| Walk.WithinIsPaths | crates/ft-index/src/index.rs:323-378 | The records within n steps are those some path of at most n edges leads to. |
| Walk.WithinIsChains | crates/ft-index/src/index.rs:881-915 | The same in terms of records and rows: chains along `blocked-by` rows one way or the other, or along rows of the four kinds from either end. |
| Walk.DirectionsMirror | crates/ft-index/src/index.rs:350-361 | One record is within n steps upstream of another exactly if that one is within n steps downstream of it; walking both ways is symmetric. |
| Walk.StepEdges | crates/ft-index/src/index.rs:881-915 | The rows crossed from a record are exactly those of the direction, each once, in any order. |
| Walk.ExpandRecord | crates/ft-index/src/index.rs:341-374 | The loop over the rows lists the unseen edges once, one deeper, and queues the unseen records once. |
| Walk.DependencyWalk | crates/ft-index/src/index.rs:323-378 | The walk ends on every relation table, cycles included, and lists exactly the edges whose nearer endpoint is less than the limit away, each once, nearest first, in all three directions. |
| Walk.ExactWalkLists | crates/ft-index/src/index.rs:323-378 | An edge is listed with a depth if and only if that depth is its distance plus one and within the limit. |
| Walk.ListedByEnds | crates/ft-index/src/index.rs:323-378 | A row is listed with a depth if and only if an end it can be crossed from is one step less away and none is nearer; which ends those are depends on the kind of the row and the direction only. |
| Walk.WalkIsDetermined | crates/ft-index/src/index.rs:323-378 | The order in which the table yields its rows does not change which edges and depths are listed. |
| Index.IndexDb.InsertRecord | crates/ft-index/src/index.rs:427-575 | The row is replaced, the old child rows are gone, and the new ones are inserted, the last of equal keys winning. |
| Index.IndexDb.InsertRelations | crates/ft-index/src/index.rs:628-641 | A relation is inserted unless one with its key is there. |
| Index.IndexDb.RemovePath | crates/ft-index/src/index.rs:195-208 | The row kept under the path goes with all its child rows; the relations stay. |
| Index.IndexDb.CollectRecords | crates/ft-index/src/index.rs:105-110 | Every stored record once, in any order; one that cannot be read fails the rebuild. |
| Index.IndexDb.RebuildFrom | crates/ft-index/src/index.rs:98-167 | A rebuild succeeds exactly when every record and the log can be read, fills the tables from nothing and counts its inserts of records and relations; otherwise it leaves the tables alone. |
| Index.IndexDb.RefreshPaths | crates/ft-index/src/index.rs:188-252 | The incremental refresh, path by path; a failure rolls back and reports the first unreadable path; rows gained and lost add up. |
| Index.IndexDb.Refresh | crates/ft-index/src/index.rs:174-253 | Above 500 paths a refresh is a rebuild, otherwise it is incremental; it succeeds exactly when what it has to read can be read, and changes nothing otherwise. |
| Refresh.RowsAfterRemoved | crates/ft-index/src/index.rs:195-208 | Removal drops exactly the rows, and child rows, kept under one of the paths. |
| Refresh.RowsAfterChanged | crates/ft-index/src/index.rs:210-235 | After the changed paths each id has the row of its last path, and the child rows of its record as stored now. |
| Refresh.SameRowIsSameFile | crates/ft-index/src/index.rs:450-470 | The columns of a row, with the state hash among them, determine content, history and every child row. |
| Refresh.RebuiltMirrors | crates/ft-index/src/index.rs:98-167 | A rebuild holds one row per record, its child rows, the edges records imply and the log, whatever the iteration order. |
| Refresh.MirroredRow | crates/ft-index/src/index.rs:427-470 | Every column of a mirrored row, from the stored record and its file. |
| Refresh.RebuildReportIsDetermined | crates/ft-index/src/index.rs:131-151 | The number of relation inserts reported does not depend on the iteration order. |
| Refresh.MirrorsAgree | crates/ft-index/src/index.rs:98-167 | Tables that mirror one disk agree on all rows, child rows and logged relations. |
| Refresh.RefreshedRelation | crates/ft-index/src/index.rs:221-242 | After an incremental refresh a relation that records do not imply is the one of the old log if it was there and not wiped, and the first of the new log otherwise. |
| Refresh.RefreshedLog | crates/ft-index/src/index.rs:221-242 | So these relations, with authors and times, are those of the log if and only if the log kept every relation that was not wiped. |
| Refresh.GrownLogIsKept | crates/ft-index/src/index.rs:239-242 | A log that only grew kept everything. |
| Refresh.IncrementIsExact | crates/ft-index/src/index.rs:188-252 | An incremental refresh leaves what a rebuild would, in rows, child rows and logged relations, if and only if the reported paths cover what changed on disk and the log kept what was not wiped, however else the log changed. |
| Refresh.TooManyMirrors | crates/ft-index/src/index.rs:180-188 | A refresh above the threshold leaves what a rebuild would, whatever the paths cover and whatever the tables held. |
| Refresh.RefreshIsExact | crates/ft-index/src/index.rs:174-253 | So any refresh leaves what a rebuild would if and only if it is given more than 500 paths, or they cover what changed and the log kept what was not wiped. |
| Refresh.RefreshedForever | crates/ft-index/src/index.rs:174-253 | Over any run of refreshes, incremental and rebuilding ones mixed, the tables mirror the disk after every one if and only if each of at most 500 paths is told what changed since the one before. |
| Structure.EdgesAfterRefresh | crates/ft-index/src/index.rs:221-229 | Which edges the relation table holds after an incremental refresh, in one condition. |
| Structure.RefreshedEdgesExact | crates/ft-index/src/index.rs:174-253 | The set of edges of every kind is that of a rebuild if and only if the refresh had more than 500 paths, or none was left behind and none was lost. |
| Structure.UnlinkedEdgeStays | crates/ft-index/src/index.rs:174-242 | An edge taken out of the log stays if and only if the record it starts from is not reread and the refresh is no rebuild. |
| Structure.SubtaskEdgeIsLost | crates/ft-index/src/index.rs:221-229 | Refreshing an unchanged task loses its edges to its subtasks, on every index and every such pair. |
| ChildTables.OwnPartDecides | crates/ft-index/src/index.rs:498-572 | Inserts into one child table never disturb another. |
| ChildTables.ChildRowsAre | crates/ft-index/src/index.rs:498-572 | The child tables hold exactly the labels, scopes, globs and claim of the record, and of criteria and evidence the last with each local id. |
| ChildTables.PartsOfBody | crates/ft-index/src/index.rs:498-572 | Tasks, subtasks and bugs have criteria, evidence and perhaps a claim, other records none. |
| ChildTables.RelationsForAre | crates/ft-index/src/index.rs:587-626 | A record implies exactly the edges between itself and its parent, and an epic those between itself and its listed children, made when and by whom the record was. |
| ChildTables.RebuiltMeta | crates/ft-index/src/index.rs:98-167 | After a rebuild each relation is as a record that implies it has it, or as the log has it first if none does. |
| Ready.ReadyRowsAreReady | crates/ft-index/src/index.rs:799-866 | The query answers a question about stored records and log alone: open, ready, in progress, in review or blocked, not waiting for such a record, not claimed beyond now unless asked for, and of the kinds, owners and scopes asked for. |
| Ready.ReadySurvivesRefresh | crates/ft-index/src/index.rs:799-866 | A refresh that is told everything, or rebuilds, gives the same answer at the same time as any rebuild. |
| Ready.WalkSurvivesRefresh | crates/ft-index/src/index.rs:323-378 | Walks in every direction are the same over any two tables that mirror the disk, walks both ways if the tables also hold its implied edges. |
| Ready.FirstStep | crates/ft-index/src/index.rs:881-915 | Over tables that hold the edges on disk a walk lists at depth one exactly what its root is blocked by, what is blocked by it, or both ways every edge of the four kinds at the root. |
| Ready.ParentIsFound | crates/ft-index/src/index.rs:323-378 | A walk both ways finds the parent of a stored record, by the edge either way. |
| Ready.BlockersAreFound | crates/ft-index/src/index.rs:323-378 | A walk one step upstream lists an edge to an unfinished record if and only if the record is blocked. |
| Select.FirstParagraphIs | crates/ft-prime/src/select.rs:309-317 | A truncated excerpt is a piece of the body without a blank line, after nothing but whitespace, empty only for a blank body. |
| Select.ExcerptIs | crates/ft-prime/src/select.rs:299-319 | A body is cut exactly when it takes more than a quarter of the budget, and then to one paragraph and the marker; the item costs its title and its excerpt. |
| Select.BeforeIsTotal | crates/ft-prime/src/select.rs:204-219 | The pack order is a total preorder. |
| Select.Pack | crates/ft-prime/src/select.rs:196-290 | The greedy loop yields the pack computed from the sorted candidates. |
| Select.PackIgnoresOrder | crates/ft-prime/src/select.rs:196-290 | For distinct ids the pack does not depend on the order in which candidates were found. |
| Select.PackFits | crates/ft-prime/src/select.rs:226-289 | Items and omissions together are as many as the candidates; the total is the sum of the item tokens and is within the budget or within what required items cost. |
| Select.OptionalMeansWithin | crates/ft-prime/src/select.rs:268-281 | If any optional record is packed, the total is within the budget. |
| Select.PackDecides | crates/ft-prime/src/select.rs:226-281 | Each candidate is packed or omitted, exactly once, with the filter reason exactly when the filter drops it; one omitted for budget is optional and would still not fit at the end. |
| Select.PackFilters | crates/ft-prime/src/select.rs:228-257 | A packed record is of a kind, of the scope and of a trust asked for, and a required one that is gets packed; one omitted for its scope or for its trust fails just that test. |
| Select.PackTells | crates/ft-prime/src/select.rs:259-289 | What a pack, its items and its omissions say of target, budget and records. |
| Select.ScoreIs | crates/ft-prime/src/score.rs:24-69 | The score: trust weight times route times recency, with work items counted as verified. |
| Select.PackIsGreedy | crates/ft-prime/src/select.rs:268-281 | An optional record is packed if and only if it fits behind the items of those ranked before it. |
| Select.PackInOrder | crates/ft-prime/src/select.rs:204-219 | Of two packed records the one with the closer route (the task, its relations, search hits, the scope), then the better score, then the id of smaller bytes stands first. |
| Prime.Selection.Push | crates/ft-prime/src/select.rs:172-191 | The first way a record is found counts; later ones change nothing. |
| Prime.PrimeForTask | crates/ft-prime/src/select.rs:25-87 | The candidates are exactly the task, its direct relations and the records of its scope that can be read, each once with its best provenance; the task itself must be readable. |
| Prime.GatheredPack | crates/ft-prime/src/select.rs:25-87 | The pack for a task is the same in whatever order relations and records are read. |
| Prime.RelatedIsPacked | crates/ft-prime/src/select.rs:25-87 | The task and its direct relations are packed if and only if they are of a kind, of the scope and of a trust asked for. |
| Prime.ScopeIsGathered | crates/ft-prime/src/select.rs:47-66 | Records taken up for their scope have the scope of the task, and every readable record that has it is taken up. |
| EmbedCache.EncodeVector | crates/ft-embed/src/cache.rs:434-440 | The byte string of a vector, four little-endian bytes a float. |
| EmbedCache.DecodeVector | crates/ft-embed/src/cache.rs:442-450 | Whole chunks of four decoded in order, a shorter rest ignored. |
| EmbedCache.EncodedIs | crates/ft-embed/src/cache.rs:434-440 | Float i stands in bytes 4i to 4i + 3, the lowest byte first. |
| EmbedCache.DecodeInvertsEncode | crates/ft-embed/src/cache.rs:434-450 | A vector survives storage bit for bit. |
| EmbedCache.EncodeInvertsDecode | crates/ft-embed/src/cache.rs:434-450 | Bytes survive decoding if and only if their number is a multiple of four. |
| EmbedCache.IntegrityChecksum | crates/ft-embed/src/cache.rs:458-473 | The hash of key parts and bytes with zero separators, fed piece by piece. |
| EmbedCache.ChecksumsCanMeet | crates/ft-embed/src/cache.rs:458-473 | Two keys can share a checksum, for some bytes, if and only if the text of one key is a prefix of the other's. |
| EmbedCache.NoZeroKeysApart | crates/ft-embed/src/cache.rs:458-473 | Among keys without zero bytes only the same key is such a prefix. |
| EmbedCache.ChecksumCommits | crates/ft-embed/src/cache.rs:458-473 | So for keys without zero bytes the checksum determines key and bytes. |
| EmbedCache.ZeroBytesCollide | crates/ft-embed/src/cache.rs:458-473 | With zero bytes two different keys can have one text, and then share a checksum for all bytes. |
| EmbedCache.EmbeddingCache.Lookup | crates/ft-embed/src/cache.rs:144-174 | Nothing for an absent key, an error for a bad checksum, the stored vector otherwise. |
| EmbedCache.EmbeddingCache.Insert | crates/ft-embed/src/cache.rs:177-198 | The row is inserted or replaced with a matching checksum; no other row changes. |
| EmbedCache.EmbeddingCache.VerifyIntegrity | crates/ft-embed/src/cache.rs:201-231 | Every row is scanned and exactly the bad ones are reported, each once, with both checksums. |
| EmbedCache.InsertedIsFound | crates/ft-embed/src/cache.rs:144-198 | What was inserted is found, and every other key answers as before. |
| EmbedCache.TamperedBytesAreRefused | crates/ft-embed/src/cache.rs:144-174 | If only the bytes of a good row change, lookup fails. |
| EmbedCache.MovedRowIsRefused | crates/ft-embed/src/cache.rs:144-174 | A good row copied under any other key is refused there if and only if the two key texts differ, as they always do without zero bytes. |
| EmbedService.EmbedTextWithHash | crates/ft-embed/src/service.rs:80-100 | Answer, store and whether the embedder was asked, with its two failures. |
| EmbedService.DirectIs | crates/ft-embed/src/service.rs:88-97 | A vector of another length than the model has is refused with both lengths. |
| EmbedService.EmbedText | crates/ft-embed/src/service.rs:73-76 | Over a store of honest rows the answer is the embedder's own and the store stays honest. |
| EmbedService.KeysWithoutZero | crates/ft-embed/src/service.rs:73-76 | A key the service writes with holds no zero byte if and only if the model id and version hold none. |
| EmbedService.RowCommits | crates/ft-embed/src/service.rs:73-100 | For such models the checksum of a row determines model, text and bytes. |
| EmbedService.CacheIsInvisible | crates/ft-embed/src/service.rs:73-100 | Over any run of calls for any models on one store that starts empty, every answer, errors included, is the embedder's own. |
| EmbedService.AskedExactlyWhenNew | crates/ft-embed/src/service.rs:85-98 | The embedder is asked if and only if no earlier call got a vector for the same model, version and text. |
| EmbedService.EmbeddedOnce | crates/ft-embed/src/service.rs:85-98 | So a text a model can embed is embedded at most once. |

## Left out

- The UTF-8 bytes of the cache's texts and keys are given; only the canonical text is encoded.
- SHA-256 and BLAKE3 themselves, and failures of serialization: hashing never fails in the model.
- Number formatting in canonical JSON: a number is the token it is written as.
- RFC 3339 text: instants are compared as numbers, also where the index compares their text.
- Minting random ids, the wall clock, file ages: given as parameters or left open.
- Files, locks, git, SQL text, migrations and SQLite itself; file writes are atomic and reads see whole files.
- Refusals of the index for malformed ids or unknown kinds in its own rows: rows are typed.
- The 32-bit depth of a walk: depths are unbounded.
- `list`, `show`, `count`, limits and row order of queries: they add easy members beside `ready`.
- The elapsed time in reports and the bookkeeping rows of the index (last rebuild, last indexed commit).
- Derivation of excerpt text and payload of the eight knowledge kinds: both are given.
- Selection by free-text query: it has a single provenance and the same packer.
- Arithmetic of the recency factor and rounding of scores.
- The content hash a caller may pass with a text: only `embed_text`, which computes it, is proved invisible.
- Drift sampling, record texts, document freshness and front matter of the embedding crate.
- The scan for promotion candidates, the CLI, the daemon, the web UI, importers, scopes, PR rules and reports.
- Updating the search index after a save; the query index is proved on its own.
- Refresh.RefreshIsExact: edges of the kinds `parent-of` and `child-of` are not part of it;
  `Structure.RefreshedEdgesExact` says exactly when a refresh reproduces them. Which of several records that imply an
  edge gives it its author and time is left open, because a rebuild takes the one that comes first
  (`ChildTables.RebuiltMeta`).
- JsonReader.ValueReadsBack: the reader leaves escaped surrogates unread, as the writer writes none.
- Commitment.CommitmentIsPrefix: for histories of reachable records; entries of arbitrary files may hold any hash.
