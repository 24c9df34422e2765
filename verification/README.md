# Communicator: verified model

A Dafny model of the parts of Communicator in which a mistake loses data, brings removed
content back, or accepts evidence that does not hold. `dafny verify dfyconfig.toml` checks
all of it.

**Removing content from backups.** `ControlledCopies`, `SplitMigration`, `RetentionProtocol`,
`RetentionSafety`, `RetentionRemoval`, `RetentionFiling`, `ResticInventory`. The snapshot
repository and the manifest are a state; backups, merges, cleanups and split migrations are
operations of several steps. Any number of them interleave, and each may fail or crash between
any two steps. In every reachable state every retained file has a place of its own with its bytes
and path, references are unique, and every disagreement between provider and manifest belongs to
an operation in flight or interrupted. The inventory report is complete exactly when the two agree and every entry is
covered, so an interruption is reported. Once a cleanup is complete, nothing made of the
snapshot it split holds the removed lineage, however many cleanups of it overlapped or stopped,
and every other lineage lies in a copy that its own inventory returns and its own cleanup can
forget.

**Restoring without resurrecting.** `RestoreSanitation`, `RestoreAuthority`, `RestoreGate`.
Sanitation erases exactly the targets of the removal ledger and nothing else, in any order of
the authorities; an exported ledger has one canonical form; and over whole runs, with the
ledger changing at any moment, a restore that becomes ready to activate has had every removal
of its lease applied.

**Contracts.** `CanonicalJson` proves the explicit-stack JSON walk equal to a recursive
judgement on shared and cyclic graphs. `EventIdOrder` proves that comparing UTF-8 bytes is
comparing scalar values.

**Reading policies and judging evidence.** `JsonString`, `PolicyDocument`, `PolicyText`,
`PolicyRoundTrip` and `PolicyPages` prove that the indentation parser reads back every document,
in whichever of many styles it is written; `PolicyAccepted` says what any accepted text is like.
`Acceptance` and `AcceptanceAgreement` prove that the evidence evaluator and the bundle
validator, written independently, agree, and `AcceptanceMeaning` says what every verdict means
in terms of the records. `JsonPointer` and `SqlRender` cover pointer resolution and SQL
rendering.

**Attachments and pages.** `Attachments` (ingest, and reading under a check, fetch, check-again
protocol) and `Pagination` (cursor walks).

`Wrappers`, `Sequences`, `Ordering`, `Decimals`, `Surrogates` and `Texts` hold what several
modules share.

Loops of the source are methods with invariants, proved against functions or predicates;
protocols are state machines whose theorems quantify over all runs.

Five expectations hold of the code only under a condition. Each has an input that shows
the failure, and the exact condition is given:

- `compareOpaqueEventIds` returns zero for two different ids when one holds an unpaired
  surrogate where the other holds U+FFFD
  (`EventIdOrder.UnpairedSurrogateComparesEqual`, `EventIdOrder.ZeroIdentifiesExactly`).
- Rendering SQL variable by variable can depend on their order even if no colon stands before
  a placeholder and no identifier character after it (`SqlRender.UnfinishedPlaceholderSpoils`,
  `SqlRender.SimultaneousIffClear`, `SqlRender.OrderIrrelevantIffClear`).
- Ingest can record a descriptor revision that no event announces
  (`Attachments.UnstatedSizeOrphans`, `Attachments.OrphansIff`, `Attachments.NeverOrphansIff`).
- A policy key in single quotes is not read back if it holds a single quote but ends with
  another character; keys with single quotes at their end only are, and the exact condition for
  all keys is a scan of the key (`PolicyText.ApostropheKeyRefused`,
  `PolicyText.SingleQuotedKeyIff`, `PolicyText.SurvivesWhen`).
- A cursor walk shows exactly the items for all page sizes only if no timestamp and id repeat
  before the last item; otherwise some page size repeats items or never ends
  (`Pagination.RepeatedItemNeverEnds`, `Pagination.RepeatedItemShownAgain`,
  `Pagination.CompleteIffResumable`).

Assumptions of the model: SHA-256, the ledger head and the truncated lineage hash are
injective; restic assigns fresh snapshot ids; a database dump followed by a restore is the
identity; strings are already trimmed where the code trims; the operator's migration map says
truthfully what each file is; at the start of a run the manifest's references are unique, the
reference of a snapshot is made of its id, and entries that are marked exclusive hold only files
of their lineage; the lease server grants a lease only for the epoch and head it
currently holds; each restore works in its own fresh directory.

## Model

| member | source | states |
|---|---|---|
| `RetentionSafety.StepKeeps` | scripts/controlled-copy-retention.py:2551-2897 | every step of every operation (core backup and merge, cleanup request, split, replacement backups, forgets, manifest writes, stop, edits of other stores) keeps the whole invariant, with any number of operations interleaved |
| `RetentionSafety.RunKeeps` | scripts/controlled-copy-retention.py:2551-2897 | the invariant holds in every state of every run from a host at rest |
| `RetentionSafety.NothingRetainedIsLost` | scripts/controlled-copy-retention.py:2551-2756 | crash safety: at every point of every run, whatever failed or crashed, every file ever backed up has a place of its own in the repository, with the same bytes and at its old path or the rest of it below the split's prefix, unless a snapshot of its lineage has been forgotten; equal files keep different places |
| `RetentionSafety.ArchiveOnlyGrows` | scripts/controlled-copy-retention.py:2551-2756 | the files spoken of are all files of the first state and of every later backup: none ever leaves the archive |
| `RetentionSafety.ReferencesStayUnique` | scripts/controlled-copy-retention.py:1022-1098 | in every state of every run, references are unique in every store of the manifest |
| `RetentionSafety.CompletedOperationsAgree` | scripts/controlled-copy-retention.py:2759-2897 | when all operations have completed, provider tags and manifest ids agree in each snapshot store |
| `RetentionSafety.InterruptionShows` | scripts/controlled-copy-retention.py:2716-2756 | an operation that stops leaves, for every snapshot id it had in flux, a store whose inventory is incomplete because provider and manifest disagree on the id, or an id that both have already dropped |
| `RetentionSafety.OrphanStaysVisible` | scripts/controlled-copy-retention.py:2650-2756 | a snapshot created by an operation that stopped makes the inventory of some store incomplete in every later state of the run, for every listing of the repository and every requested scope |
| `RetentionSafety.DisagreementIsReported` | scripts/controlled-copy-retention.py:1396-1426 | over any listing of the repository, the ids that the inventory compares are equal exactly when provider and manifest agree |
| `RetentionSafety.SplitRemovesLineage` | scripts/controlled-copy-retention.py:2609-2748 | once the mixed snapshot is forgotten, every planned replacement exists, holds one class only and never the removed lineage, and together they hold every other file of the old tree at its path below the prefix |
| `RetentionRemoval.OneLineagePerSnapshot` | scripts/controlled-copy-retention.py:3137-3197 | a cleanup only ever chooses a copy listed under the lineage it removes, and a snapshot is listed under one lineage all its life: in every run all replacements of one snapshot, by whatever cleanups, were made without the same lineage, and none of them holds it |
| `RetentionRemoval.ReplacementsAreFinal` | scripts/controlled-copy-retention.py:2831-2845 | in every run no replacement is itself split |
| `RetentionRemoval.CleanedLineageIsGone` | scripts/controlled-copy-retention.py:2551-2756 | in every run, from the moment the cleanup of a lineage on a snapshot is complete, neither the snapshot nor anything made of it, directly or not, by this cleanup or another, completed, under way or interrupted, holds the lineage |
| `RetentionFiling.ReplacementsListedRight` | scripts/controlled-copy-retention.py:2670-2712 | in every state of every run, a listed replacement that exists is listed for what it holds: in the snapshot store as a message copy, exclusive, under the lineage of all its files; in a store of protected material with nothing but that material, under the removed lineage |
| `RetentionFiling.SplitLeavesLineagesRemovable` | scripts/controlled-copy-retention.py:2633-2748 | when a split is recorded, every message file of another lineage lies at its old path's rest in a snapshot that is listed under its own lineage, that this lineage's inventory returns for every listing and scope (exactly unless the lineage poses as the core backup's), and whose cleanup can choose and forget it; every protected file lies in a snapshot listed in its own store |
| `RetentionFiling.CoreIsAggregate` | scripts/merge-controlled-copy-manifest.py:108-144 | a merged core backup is listed as an aggregate: every projectable scope's inventory returns it if its layout is proved and reports missing coverage otherwise, and it is neither a message copy nor exclusive |
| `SplitMigration.ReadSpec` | scripts/controlled-copy-retention.py:1672-1703 | accepted exactly when the map is complete, paths are distinct and each entry is well formed, messages with exact lineage; the entries come back in order with their path, class and lineage |
| `SplitMigration.RawEntryOkIff` | scripts/controlled-copy-retention.py:1672-1703 | an entry is well formed exactly when it has a path, one of the three classes and a lineage, which for messages has no wildcard |
| `SplitMigration.CopyFiles` | scripts/controlled-copy-retention.py:2650-2692 | a replacement holds exactly the restored files that the map assigns to its class |
| `SplitMigration.GroupKinds` | scripts/controlled-copy-retention.py:2633-2641 | the groups are exactly the message lineages and the protected classes of the map, each once |
| `SplitMigration.CopyKinds` | scripts/controlled-copy-retention.py:2650-2714 | one replacement per retained class, in order, each holding that class's files |
| `SplitMigration.PlanSplit` | scripts/controlled-copy-retention.py:2609-2717 | a split is planned if and only if the map covers the tree exactly, names the removed lineage and retains something; then the plan is a split |
| `SplitMigration.SplitConserves` | scripts/controlled-copy-retention.py:1734-1761 | conservation: the replacements are pairwise disjoint, their union is exactly the old tree without the removed lineage's files, with the same bytes, and each holds one class |
| `ControlledCopies.TagsSeparate` | scripts/controlled-copy-retention.py:1340-1407 | each tag that the scripts write is controlled by exactly one store |
| `ControlledCopies.AppendEntries` | scripts/controlled-copy-retention.py:1022-1063 | appending keeps the old entries as a prefix, adds only given entries, covers every given reference and keeps references unique |
| `ControlledCopies.AppendedIds` | scripts/merge-controlled-copy-manifest.py:89-156 | for snapshot entries, an append lists exactly the old and the added snapshot ids |
| `ControlledCopies.WithoutEntries` | scripts/controlled-copy-retention.py:1066-1098 | removal keeps exactly the entries with another reference |
| `ControlledCopies.WithoutIds` | scripts/controlled-copy-retention.py:2759-2828 | for snapshot entries, removal drops exactly that snapshot id |
| `ResticInventory.Judge` | scripts/controlled-copy-retention.py:1431-1491 | each manifest entry is judged poisonous, uncovered or included exactly when the corresponding declarative condition holds |
| `ResticInventory.JudgeMeans` | scripts/controlled-copy-retention.py:1431-1491 | an entry that the provider lists fails the whole inventory if its lineage is not exact; a core entry is returned exactly if it is an aggregate of its own snapshot with declared and proved coverage and the scope can take it, else coverage is missing; any other entry is returned exactly for its own lineage, and then must have a reference |
| `ResticInventory.ControlledIds` | scripts/controlled-copy-retention.py:1396-1407 | the ids with a controlled tag, refused when a listing has no id |
| `ResticInventory.CollectCopies` | scripts/controlled-copy-retention.py:1427-1491 | the loop fails exactly on a poisonous entry, counts an error exactly when some entry is uncovered, and returns each matching reference once and no other |
| `ResticInventory.SnapshotInventory` | scripts/controlled-copy-retention.py:1340-1517 | complete if and only if the controlled ids equal the manifest ids and no entry is uncovered; copies are exactly the matches, without duplicates, under the requested lineage |
| `ResticInventory.CompleteInventoryIsSound` | scripts/controlled-copy-retention.py:1396-1517 | against a repository, a complete inventory lists exactly the controlled snapshots, and a reference is returned exactly when its entry is an aggregate or carries the requested lineage |
| `RestoreSanitation.BindTargets` | scripts/restore-core-gate.py:978-1037 | one authority's targets are added exactly when they follow their contract and no key repeats |
| `RestoreSanitation.TargetOkIff` | scripts/restore-core-gate.py:978-1037 | a target is accepted exactly when it carries its authority's resource and generation, its media are fully located, and it is an event of Synapse or a part of one of the three bridges |
| `RestoreSanitation.TargetsFor` | scripts/restore-core-gate.py:978-1037 | the target list of all authorities in order, refused exactly when an authority has no valid targets or a key repeats |
| `RestoreSanitation.RewriteSynapse` | scripts/controlled-copy-retention.py:2187-2225 | succeeds exactly when each target joins to one readable row; then exactly the targeted rows lose their content |
| `RestoreSanitation.EventFoundIff` | scripts/controlled-copy-retention.py:2187-2240 | a target is accepted exactly when one event row and one document carry its room and event id, the document is readable and names both, and the row's kind is the target's, a message or an encrypted one |
| `RestoreSanitation.RedactRemovesContent` | scripts/controlled-copy-retention.py:2187-2240 | exactly the documents whose room and event id a target states lose their content, and nothing but it |
| `RestoreSanitation.VerifySynapse` | scripts/controlled-copy-retention.py:2220-2225 | accepts exactly when every target's event is erased |
| `RestoreSanitation.EraseTarget` | scripts/controlled-copy-retention.py:2265-2297 | deletes one bridge part and its reactions, exactly when the schema is known and the part is stored once |
| `RestoreSanitation.PartCountIs` | scripts/controlled-copy-retention.py:2243-2263 | a part counts once exactly when one message row carries its bridge, message and part id, and not at all when none does |
| `RestoreSanitation.EraseRemovesParts` | scripts/controlled-copy-retention.py:2277-2290 | exactly the message rows and the reaction rows whose bridge, message and part ids are all three those of a target are gone; every other row is there as often as before |
| `RestoreSanitation.RewriteBridge` | scripts/controlled-copy-retention.py:2307-2336 | succeeds exactly when each target names one stored part and none twice; the row-by-row deletions equal one filter by all targets |
| `RestoreSanitation.VerifyBridge` | scripts/controlled-copy-retention.py:2300-2304 | accepts exactly when no targeted part is left |
| `RestoreSanitation.RemoveMedia` | scripts/controlled-copy-retention.py:2339-2352 | removes exactly the listed files, refused when one is missing or listed twice |
| `RestoreSanitation.SanitizeDatabase` | scripts/restore-core-gate.py:1069-1098 | one database restored, rewritten, verified and put back, all others untouched |
| `RestoreSanitation.SanitizeDatabases` | scripts/restore-core-gate.py:1059-1102 | all named databases rewritten, succeeding exactly when each is ready |
| `RestoreSanitation.SanitizePayload` | scripts/restore-core-gate.py:1040-1116 | succeeds exactly when targets, databases and media are ready; the result is the payload with all targets erased at once |
| `RestoreSanitation.SanitizedErases` | scripts/restore-core-gate.py:1040-1116 | every target of every authority is erased: event content redacted, bridge part and reactions gone, media gone |
| `RestoreSanitation.SanitizedKeepsTheRest` | scripts/controlled-copy-retention.py:2187-2300 | in each bridge database a row is gone exactly if a target of that database states its bridge, message and part, and is there as often as before otherwise; in the Synapse database exactly the documents of targeted events lose their content and nothing else; the files that are gone are exactly the media of the targets |
| `RestoreSanitation.AuthorityOrderIrrelevant` | scripts/restore-core-gate.py:1040-1116 | permuting the authorities changes neither success nor the resulting payload |
| `RestoreAuthority.ValidateRecords` | scripts/restore-core-gate.py:216-259 | accepted exactly when records are valid, equal ids mean equal records and one lineage has one id; the result is the canonical list |
| `RestoreAuthority.RecordsOkIff` | scripts/restore-core-gate.py:216-259 | records are accepted exactly when each is complete, of this tenant and ledger epoch and states an exact lineage, one id has one record and one lineage one id |
| `RestoreAuthority.CanonicalForm` | scripts/restore-core-gate.py:216-259 | canonical records are strictly sorted by epoch then id, contain each record once, have unique ids and lineages and epochs within 1..head |
| `RestoreAuthority.SortedUnique` | scripts/restore-core-gate.py:259 | a strictly sorted list is determined by its members |
| `RestoreAuthority.RecordOrderIrrelevant` | scripts/restore-core-gate.py:216-259 | reordering or repeating records changes neither acceptance nor the canonical list |
| `RestoreAuthority.ValidateStatuses` | scripts/restore-core-gate.py:283-352 | accepted exactly when each store has one valid status whose references are those of its copies |
| `RestoreAuthority.IndexEntries` | scripts/restore-core-gate.py:265-366 | the index holds the normalised form of exactly the entries seen |
| `RestoreAuthority.ValidateInventory` | scripts/restore-core-gate.py:261-371 | accepted exactly when each authority has one valid entry; the result follows the order of the authorities |
| `RestoreAuthority.InventoryOrderIrrelevant` | scripts/restore-core-gate.py:261-371 | permuting inventory entries changes neither acceptance nor the normalised inventory |
| `RestoreAuthority.ValidateDocument` | scripts/restore-core-gate.py:201-528 | an export is accepted exactly when its ledger, inventory, head and evidence are consistent, and is returned in canonical form |
| `RestoreAuthority.EvidenceOkIff` | scripts/restore-core-gate.py:376-462 | store evidence is accepted exactly when each store has one item, referenced exactly by its copies, preserved with content in the two protected stores and complete without content in the others |
| `RestoreAuthority.CopiesMatchIff` | scripts/restore-core-gate.py:442-455 | evidence matches the inventory exactly when it describes each copy of each store as often as the inventory lists it there |
| `RestoreAuthority.CanonicalExport` | scripts/restore-core-gate.py:201-528 | reordering or repeating authority records and permuting inventory entries changes neither acceptance nor any part of the export, its head included |
| `RestoreGate.RunPayloadGate` | scripts/restore-core-gate.py:1119-1194 | succeeds exactly when sanitation is possible and, if the authority is read again, nothing in it has moved: neither removals and head nor inventory, store evidence or archive; the result is the sanitized payload and a report that matches exactly the unmoved exports |
| `RestoreGate.FingerprintsEqualIff` | scripts/restore-core-gate.py:146-163 | two exports have one fingerprint exactly when tenant, epoch, head, inventory, store evidence and archive are equal and their removals are pairwise the same but for progress and located copies |
| `RestoreGate.ReportMatchesIff` | scripts/restore-core-gate.py:546-572 | a ready report is accepted at activation exactly for its own tenant and an export in which nothing has moved |
| `RestoreGate.StepKeeps` | scripts/restore-core-gate.py:1119-1302 | each step of any number of restores, and each change of the ledger, keeps what is known of every restore at its stage |
| `RestoreGate.RunKeeps` | scripts/restore-core-gate.py:1119-1302 | the same in every state of every run |
| `RestoreGate.NoResurrection` | scripts/restore-core-gate.py:546-572 | once a restore is ready to activate, every removal in the export used for the lease has been applied to its payload, however removals interleaved |
| `RestoreGate.ActivatedUnmoved` | scripts/restore-core-gate.py:546-572 | in every run, a restore that is ready to activate was sanitized under an export in which nothing has moved up to the one fetched for activation |
| `RestoreGate.LedgerUnmoved` | scripts/restore-core-gate.py:1161-1170 | a report after a second reading is possible exactly when nothing in the ledger has moved since it was loaded, and its acceptance at activation exactly when nothing has moved by then |
| `RestoreGate.LedgerAppliedAtLease` | scripts/restore-core-gate.py:859-896 | every removal that the ledger held when the lease was granted has been applied to the payload |
| `CanonicalJson.IsCanonicalJsonValue` | packages/contracts/src/canonical-event.ts:51-157 | the explicit-stack loop ends on every graph, shared or cyclic, and says yes exactly when the unfolding has only valid nodes, depth at most 32 and at most 50,000 nodes counted with multiplicity |
| `CanonicalJson.IsCanonicalJsonObject` | packages/contracts/src/canonical-event.ts:159-172 | the same, and the root is neither null nor an array |
| `CanonicalJson.ArrayIndexKeys` | packages/contracts/src/canonical-event.ts:28-36 | admitted array keys are exactly the decimal names of its indices |
| `CanonicalJson.BoundedAlongPath` | packages/contracts/src/canonical-event.ts:51-157 | a bounded unfolding bounds every path from the root |
| `CanonicalJson.CycleHasNoBoundedUnfolding` | packages/contracts/src/canonical-event.ts:88 | a value on a cycle has no unfolding of bounded depth, whatever the bound |
| `CanonicalJson.WalkWithoutCycleTest` | packages/contracts/src/canonical-event.ts:51-157 | dropping the active set and its cycle test from the loop does not change the answer on any graph |
| `CanonicalJson.ReentryIsUnbounded` | packages/contracts/src/canonical-event.ts:88 | re-entering a container of the active set always means the answer is no |
| `CanonicalJson.VisitContainer` | packages/contracts/src/canonical-event.ts:88-150 | entering a container keeps the walk invariant: the active set is exactly the containers on the current path, and counted plus pending nodes are those of the unfolding |
| `CanonicalJson.PushElements` | packages/contracts/src/canonical-event.ts:90-123 | an array is accepted exactly when its shape is valid, and its elements are pushed last first above its leave frame |
| `CanonicalJson.PushValues` | packages/contracts/src/canonical-event.ts:125-150 | the same for a plain object and its values |
| `EventIdOrder.ByteOrderIsScalarOrder` | packages/contracts/src/projection.ts:592-609 | section 1 of RFC 3629: byte order of UTF-8 equals order of scalar values, and the encoding is injective |
| `EventIdOrder.Utf16RoundTrip` | packages/contracts/src/projection.ts:592-609 | every sequence of scalar values is read back from its UTF-16 code units |
| `EventIdOrder.OctetsCarry` | packages/contracts/src/projection.ts:592-609 | section 3 of RFC 3629: the octets carry the bits of the scalar value, six in each continuation octet and the rest in the lead octet |
| `EventIdOrder.CompareBytes` | packages/contracts/src/projection.ts:598-608 | the byte loop computes lexicographic order |
| `EventIdOrder.Compare` | packages/contracts/src/projection.ts:592-609 | throws exactly on invalid ids, otherwise is -1, 0 or 1 exactly by lexicographic order of the scalar values of the trimmed ids |
| `EventIdOrder.KeysTotallyOrdered` | packages/contracts/src/projection.ts:592-609 | the order is total, transitive and antisymmetric |
| `EventIdOrder.UnpairedSurrogateComparesEqual` | packages/contracts/src/projection.ts:592-609 | counterexample: two different trimmed ids that compare as equal |
| `EventIdOrder.ZeroIdentifiesExactly` | packages/contracts/src/canonical-event.ts:217 | zero identifies a trimmed id if and only if U+FFFD is not among its scalar values |
| `JsonString.QuoteRoundTrip` | scripts/validate_telegram_policy.py:39-64 | every string survives being written as a JSON literal and read |
| `PolicyDocument.SplitMappingLoop` | scripts/validate_telegram_policy.py:13-36 | the quote-tracking loop finds the first separator outside quotes |
| `PolicyDocument.ParseBlock` | scripts/validate_telegram_policy.py:86-146 | an accepted block ends at a row strictly after its first one and within the document |
| `PolicyDocument.ParseEntriesLoop` | scripts/validate_telegram_policy.py:91-146 | the mapping loop computes the recursive reading of its rows |
| `PolicyDocument.ParseItemsLoop` | scripts/validate_telegram_policy.py:91-146 | the list loop computes the recursive reading of its rows |
| `PolicyDocument.ParseBlockLoop` | scripts/validate_telegram_policy.py:86-146 | the inner parser computes the recursive reading |
| `PolicyDocument.ParseDocumentLoop` | scripts/validate_telegram_policy.py:74-155 | rows collected, parsed from indentation zero, all consumed, root a mapping |
| `PolicyText.DoubleQuotedReads` | scripts/validate_telegram_policy.py:50-57 | every string, written as a JSON literal, is read back as that string |
| `PolicyText.SingleQuotedReads` | scripts/validate_telegram_policy.py:58-59 | every one-line string, written between single quotes with its quotes doubled, is read back as that string |
| `PolicyText.PlainReads` | scripts/validate_telegram_policy.py:39-64 | every stripped one-line string that is no keyword and no integer and starts no other kind of scalar is read as itself |
| `PolicyText.ScalarRefusedIff` | scripts/validate_telegram_policy.py:39-64 | a scalar is refused exactly when it is empty, opens a bracket without being an empty list or mapping, or opens a double quote without being a JSON literal |
| `PolicyText.WrittenKey` | scripts/validate_telegram_policy.py:13-36 | a key in any of the three quotings that fit it is read back, and split off at its own colon whatever follows |
| `PolicyText.SingleQuotedKeyIff` | scripts/validate_telegram_policy.py:13-36 | a key written between single quotes is split off at its colon, whatever follows, exactly when no blank follows a colon behind a single quote that another character follows (outside double quotes), and such a quote, if any, leaves all double quotes closed and a single quote at the end of the key |
| `PolicyText.SurvivesWhen` | scripts/validate_telegram_policy.py:24-29 | in particular keys with single quotes at their end only, or none, come through, and keys with a single quote and another character at their end never do |
| `PolicyText.ApostropheKeyRefused` | scripts/validate_telegram_policy.py:24-29 | the shortest such entry is refused as having no separator |
| `PolicyRoundTrip.OneKeyNullBecomesEmpty` | scripts/validate_telegram_policy.py:128-129 | in any list, a one-key null mapping written behind the dash is read with an empty mapping |
| `PolicyRoundTrip.ReadFrom` | scripts/validate_telegram_policy.py:86-146 | reading a printed block from any of its children on gives exactly the remaining children and stops right behind the block, wherever it lies in a document |
| `PolicyRoundTrip.RowsRoundTrip` | scripts/validate_telegram_policy.py:86-155 | every document, a non-empty mapping with any nesting of lists, mappings and leaves and distinct keys, is read back from its rows in every style: any quoting that fits each key and string, any even indentation of each block, any of three shapes of a mapping in a list, empty mappings and null items written or left blank |
| `PolicyPages.SplitPage` | scripts/validate_telegram_policy.py:76 | a text splits into exactly its lines, whichever line ends separate them, CR LF counting once, and whether or not the last line is ended |
| `PolicyPages.IgnoredIsNoise` | scripts/validate_telegram_policy.py:77-78 | the lines that are skipped are exactly the blank ones and the comments |
| `PolicyPages.RoundTrip` | scripts/validate_telegram_policy.py:74-155 | every such document survives being printed in any style on any page, with any line ends and any blank lines and comments between its rows, and read |
| `PolicyAccepted.RowsAreContent` | scripts/validate_telegram_policy.py:75-84 | the rows are the lines that count, in order, each with its indentation and the rest of its text, and they are accepted exactly when none of those lines has a tab or an odd indentation |
| `PolicyAccepted.AcceptedIsProper` | scripts/validate_telegram_policy.py:86-155 | whatever the text, an accepted document is a mapping in which every mapping, however deep, has distinct keys |
| `PolicyAccepted.AcceptedIsNested` | scripts/validate_telegram_policy.py:86-155 | whatever the rows, in an accepted document each is indented deeper than a row that can have a block, or as deep as an earlier row of the same kind with only deeper rows between: no outdent to a level never opened, no block that mixes items and entries |
| `Acceptance.MergeEvidence` | scripts/client_acceptance.py:2703-2716 | the first-value-wins loop: observed values and conflicting names |
| `Acceptance.ConflictsMeanDisagreement` | scripts/client_acceptance.py:2703-2716 | a conflict is recorded exactly when some two records disagree on a field, though only first values are compared |
| `Acceptance.EvaluateCase` | scripts/client_acceptance.py:2692-2806 | one requirement: observations judged in order, evidence of all passing records merged |
| `Acceptance.EvaluateCases` | scripts/client_acceptance.py:2691-2806 | the loop over requirements with its index of passing cases |
| `Acceptance.EvaluateScenario` | scripts/client_acceptance.py:2684-2876 | cases, relations, operation ids and overall status |
| `AcceptanceAgreement.CasePassesIff` | scripts/client_acceptance.py:2752-2791 | a case passes exactly when its passing records agree with each other and with the expected values and every declared observation is fully evidenced |
| `AcceptanceMeaning.ObservationStatusMeans` | scripts/client_acceptance.py:2703-2747 | each status of an observation, from its records: a defect if passing ones disagree, or nothing is asked, none passes and one failed; else unverified if there is no record, a field is not shown, or nothing is asked, none passes and one is unverified; else a pass if one passes and unsupported otherwise |
| `AcceptanceMeaning.CaseStatusMeans` | scripts/client_acceptance.py:2752-2792 | each status of a case, from the records: a defect if passing ones disagree, show another value than expected, or an observation fails; else unverified if an observation is unproven; else a pass if each observation has a passing record and unsupported otherwise |
| `AcceptanceMeaning.RelationStatusMeans` | scripts/client_acceptance.py:2810-2865 | each status of a relation, from the records: unverified unless both cases pass and passing records show every field on both sides; then a pass if all values are equal, or for a distinctness relation some differ, and a defect otherwise |
| `AcceptanceMeaning.CaseReports` | scripts/client_acceptance.py:2793-2808 | a case reports its requirement, exactly the fields that passing records show, and the ids of exactly those records, or of all its records if none passes |
| `AcceptanceAgreement.ScenarioIsWorst` | scripts/client_acceptance.py:2864-2876 | the scenario status is the worst of its cases and relations |
| `AcceptanceAgreement.NoPassingIsUnverified` | scripts/client_acceptance.py:2717-2735 | an observation with fields and no passing record is unverified, whatever its records' statuses |
| `AcceptanceAgreement.ValidateScenario` | scripts/client_acceptance.py:3622-3804 | the validator's loops accept exactly the records that meet all its checks |
| `AcceptanceMeaning.ValidatedIsSound` | scripts/client_acceptance.py:3642-3765 | whoever wrote it, a validated bundle has a case for each requirement and no other; each names known operations of its own scenario, role and case that do not contradict each other, lists exactly the fields they show and has every declared observation; what passes is backed by passing operations that show every field asked for |
| `AcceptanceMeaning.ValidatedRelationHolds` | scripts/client_acceptance.py:3766-3804 | a validated relation that passes rests on two passing cases whose operations show every field, all with a common value or, for distinctness, one with different values |
| `AcceptanceAgreement.ObservationAccepted` | scripts/client_acceptance.py:3697-3746 | what the evaluator writes for one observation always passes the validator |
| `AcceptanceAgreement.CaseAcceptedIff` | scripts/client_acceptance.py:3652-3775 | what the evaluator writes for one case passes the validator exactly when no two passing records disagree |
| `AcceptanceAgreement.RelationAccepted` | scripts/client_acceptance.py:3776-3794 | a relation that the evaluator passes holds on the values that the validator recovers |
| `AcceptanceAgreement.PassIsJustified` | scripts/client_acceptance.py:3795-3804 | a scenario that the evaluator passes rests on passing operations, at least one |
| `AcceptanceAgreement.EvaluatorAndValidatorAgree` | scripts/client_acceptance.py:3622-3804 | the evaluator's record passes all scenario checks if and only if no two passing records of one requirement disagree on a field |
| `AcceptanceAgreement.RecordOrderIrrelevant` | scripts/client_acceptance.py:2684-2876 | permuting the records changes no observation, case, relation or scenario status, no observed field and no named operation |
| `JsonPointer.Resolve` | scripts/client_acceptance.py:1463-1477 | the loop computes the walk over the unescaped tokens; an unrooted pointer is refused |
| `JsonPointer.UnescapeReadsOnce` | scripts/client_acceptance.py:1470 | the two replacements equal one left-to-right decoding, for every token, well formed or not |
| `JsonPointer.EscapeRoundTrip` | scripts/client_acceptance.py:1470 | escaping per section 3 of RFC 6901 is undone and leaves no slash |
| `JsonPointer.FindsExactlyPaths` | scripts/client_acceptance.py:1463-1477 | a pointer finds a value exactly when some path of keys and positions selected by its tokens leads to it |
| `JsonPointer.PointerFindsPath` | scripts/client_acceptance.py:1463-1477 | the pointer of an existing path resolves to the value at that path, for keys with any mixture of ~ and / |
| `SqlRender.SqlLiteral` | scripts/controlled-copy-retention.py:145-149 | refused exactly for a NUL; otherwise the text lexes to the value, whatever follows it, unless that is a quote |
| `SqlRender.RenderSqlVariables` | scripts/controlled-copy-retention.py:152-158 | variables replaced one after the other, refused exactly when a value holds NUL |
| `SqlRender.LiteralReadsBack` | scripts/controlled-copy-retention.py:145-149 | a literal lexes back to its value if and only if no quote follows it |
| `SqlRender.StepExact` | scripts/controlled-copy-retention.py:155-157 | one replacement equals substitution at the real placeholders exactly when nothing else looks like one |
| `SqlRender.SimultaneousIffClear` | scripts/controlled-copy-retention.py:152-158 | rendering is one simultaneous substitution for all values, subsets and orders of the variables if and only if the template is clear |
| `SqlRender.VariableOrderIrrelevant` | scripts/controlled-copy-retention.py:152-158 | over a clear template two orders of the same variables render the same text |
| `SqlRender.OrderIrrelevantIffClear` | scripts/controlled-copy-retention.py:152-158 | the order of the variables matters for no values if and only if the template is clear |
| `SqlRender.InsertedLiteralsReadBack` | scripts/controlled-copy-retention.py:152-158 | in a rendering each placeholder's text lexes to its variable's value exactly when no quote or filled placeholder follows |
| `SqlRender.UnfinishedPlaceholderSpoils` | scripts/controlled-copy-retention.py:152-158 | counterexample: a template with no colon before and no identifier after its placeholder whose rendering depends on the order |
| `Attachments.MediaKeyRoundTrip` | services/matrix-gateway/src/attachments.rs:580-593 | a key parses to a tenant and a hash exactly when it is the key built from them and both are valid |
| `Attachments.ValidRequestIff` | services/matrix-gateway/src/attachments.rs:376-418 | a request is well formed exactly when its eight ids are resource ids, its provider is known, its key is the one built from its tenant and a hash, and it expects a size within the limit, that hash and a valid media type, if any |
| `Attachments.ResolveMediaMetadata` | services/matrix-gateway/src/attachments.rs:248-345 | the loop updates descriptors in place and appends the new events behind the old ones; on failure the events stay as they were |
| `Attachments.TakenCollects` | services/matrix-gateway/src/attachments.rs:253-344 | on success the new events are those of the resolved descriptors, one each, in order |
| `Attachments.FailsIffFatal` | services/matrix-gateway/src/attachments.rs:253-344 | the run fails exactly when some descriptor's outcome is fatal |
| `Attachments.ResolvedOrUntouched` | services/matrix-gateway/src/attachments.rs:276-342 | if the projection states no more of the media than the descriptor, a descriptor changes only together with its event, which announces the fetched bytes under the new revision and keeps the rest of the observed event |
| `Attachments.OrphansIff` | services/matrix-gateway/src/attachments.rs:253-326 | a fetch leaves a revision that no event announces exactly when the descriptor admits the bytes, a revision is derived and the projection does not admit them |
| `Attachments.NeverOrphansIff` | services/matrix-gateway/src/attachments.rs:253-326 | under every collision-free hash no fetch leaves such a revision if every media field that the projection states equals the descriptor's; otherwise some fetch under some collision-free hash does |
| `Attachments.UnstatedSizeOrphans` | services/matrix-gateway/src/attachments.rs:299-326 | counterexample: a projection that states one byte, a descriptor that states no size, two bytes fetched: new metadata and a revision are recorded that no event announces |
| `Attachments.IngestAnnounces` | services/matrix-gateway/src/attachments.rs:248-345 | after ingest every descriptor is untouched or announced by a new event, and every new event announces a descriptor |
| `Attachments.HandleRequest` | services/matrix-gateway/src/attachments.rs:442-491 | bytes are released if and only if the request is valid, both checks hold around a fetch of the same medium and the bytes are the named ones; otherwise the refusal says which check failed |
| `Attachments.AnnouncedIsReadable` | services/matrix-gateway/src/attachments.rs:376-417 | a read built from an announcing event, over a store that keeps descriptor and binding, of the same bytes, is released exactly when they fit the size limit |
| `Attachments.OneKeyOneContent` | services/matrix-gateway/src/attachments.rs:532-578 | whatever the store does, two released reads of one media key release the same bytes |
| `Pagination.ConversationsConsistent` | apps/control-plane/src/mocks/conversation-pagination.ts:26-34 | the recency comparison is a consistent order if the collation is |
| `Pagination.MessagesConsistent` | apps/control-plane/src/mocks/conversation-pagination.ts:105-111 | the message comparison is a consistent order if the collation is |
| `Pagination.SortedIsSorted` | apps/control-plane/src/mocks/conversation-pagination.ts:69 | sorting gives an ordered permutation in which items that compare equal keep their order |
| `Pagination.ConversationsNewestFirst` | apps/control-plane/src/mocks/conversation-pagination.ts:26-34 | conversations come in descending order of their timestamps, and by ascending id where these compare equal |
| `Pagination.MessagesNewestFirst` | apps/control-plane/src/mocks/conversation-pagination.ts:105-111 | messages come in descending order of their instants, and by ascending id where these are equal |
| `Pagination.Paginate` | apps/control-plane/src/mocks/conversation-pagination.ts:61-97 | limit and cursor checked, the page cut behind the first item that the cursor names |
| `Pagination.PageMeans` | apps/control-plane/src/mocks/conversation-pagination.ts:62-96 | a page is given exactly for a limit from 1 to 100 and a cursor that is absent or names an item; it holds the limit's number of items behind the first one named, or all that are left, and its next cursor names its last item exactly when some are left |
| `Pagination.WalkIsComplete` | apps/control-plane/src/mocks/conversation-pagination.ts:61-146 | with distinct ids and any page sizes in 1..100, following the cursor ends and the pages are exactly the sorted source, nothing repeated or missed |
| `Pagination.CompleteIffResumable` | apps/control-plane/src/mocks/conversation-pagination.ts:61-146 | for all page sizes in 1..100 the walk ends with exactly the sorted items, if and only if no timestamp and id repeat before the last item |
| `Pagination.EndsIffResumable` | apps/control-plane/src/mocks/conversation-pagination.ts:70-83 | with pages of one item the walk ends at all if and only if no timestamp and id repeat before the last item |
| `Pagination.RepeatedItemNeverEnds` | apps/control-plane/src/mocks/conversation-pagination.ts:70-83 | counterexample: an item twice and then another, with pages of one item, gives the same cursor for ever |
| `Pagination.RepeatedItemShownAgain` | apps/control-plane/src/mocks/conversation-pagination.ts:70-83 | counterexample with pages of two: the same items end after two pages and show the repeated one again |

## Left out

- Subprocess calls (restic, psql, pg_dump, wrangler), HTTP clients and servers, temporary files and file locks: each is one atomic step, an identity or a parameter of the model.
- The core migration protocol (`migrate_core_restic_copy`) as a whole: it files its replacement under the removed lineage and leaves an existing layout as it was after deleting media, so it does not keep the invariant above; only its row rewriters are modelled.
- Core migration specs, including their `databases` list, which is appended to while it is still unset: only the file kind of `read_legacy_migration_spec` is modelled.
- Path normalisation, symbolic links, empty prefixes with a layout file, and the timestamp check on manifest entries.
- `validate_payload` and `verify_restic_snapshot_payload`: file layout checks over the payload directory.
- RestoreSanitation.SanitizePayload: the payload directory is a value handed from step to step, not a tree changed in place, so what a failed run leaves half rewritten is not described; the gate blocks such a restore.
- RestoreAuthority.ValidateStatuses: checks that look at one value of a status only are one flag.
- RestoreAuthority.ValidateDocument: checks that look at one value only (non-empty strings, timestamps, booleans, digests' shapes) are one flag per record; every check that relates values is modelled.
- RestoreGate.NoResurrection: claims that the removals of the lease's export were applied, not that their target lists are those of the export, because the fingerprint does not cover targets.
- RestoreGate.RunPayloadGate: stage timing, failpoints and the age limit of the authority export.
- Revoking or releasing an activation lease after activation.
- CanonicalJson.IsCanonicalJsonValue: property access has no effect on the graph; proxies and accessors that throw or change it during the walk are not modelled beyond being refused as accessors.
- JsonString.QuoteRoundTrip: a literal that escapes an unpaired surrogate has no value here, since a Dafny character is a scalar value.
- PolicyPages.RoundTrip: integers longer than the interpreter's limit for `int()` are not excluded; a blank mapping entry is chosen by its key and a blank null item for the whole document.
- Acceptance.EvaluateScenario: reasons (explanatory texts) and template resolution of expected values.
- AcceptanceAgreement.ValidateScenario: shape checks of the JSON bundle (key sets, types, tickets, title, evidence class); each observation's evidence fields are taken as given, together covering the requirement's.
- The tables of scenarios, request contracts and evidence contracts in `scripts/client_acceptance.py`: finite data.
- JsonPointer.Resolve: non-ASCII digits accepted by `str.isdigit`, and the interpreter's limit on the length of integer literals.
- SqlRender.RenderSqlVariables: variable names contain no quote, colon or NUL, as all callers' names do.
- Attachments.HandleRequest: decoding of the request body, sealing of stored descriptors and the base64 response; `valid_mime`, `valid_event` and derived ids are parameters.
- Pagination.Paginate: timestamps that do not parse, and the schema check of the message page; base64 and JSON of the cursor are taken as inverse pairs.
- The Worker (`apps/control-plane/worker`), the user interface, the remaining Zod schemas, configuration renderers and the other policy validators: routing, templates and flat checks.
- `services/matrix-gateway/src/admin.rs` and the gateway store: argument parsing and a database layer.
