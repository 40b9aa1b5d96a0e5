# Verification of the Tenkai release coordinator

This project models the parts of Tenkai whose correctness depends on more than one function: the
connectivity coordinator with its environment leases, the audit export chain, content collection,
backups, automatic plan approval, and the canonical bytes of pins and upgrade identities. The models
follow the Rust code branch by branch. Code that updates records, files or worklists step by step is
written as methods and classes; each is tied to a specification function, and the theorems are about
those functions, about every state a class can reach, or about whole runs.

`dafny verify dfyconfig.toml` checks everything.

| component | files |
|---|---|
| upgrade records and their operations | `Upgrade.dfy`, `UpgradeOperations.dfy`, `UpgradeProperties.dfy`, `UpgradeSequences.dfy`, `UpgradeOutcomes.dfy`, `UpgradeMerge.dfy`, `UpgradeMergeOrder.dfy`, `UpgradeMergeOperations.dfy`, `UpgradeMergeSettled.dfy` |
| lease protocol of the coordinator | `Coordinator.dfy`, `CoordinatorSafety.dfy`, `CoordinatorRuns.dfy`, `CoordinatorLeases.dfy`, `CoordinatorProgress.dfy` |
| content collection | `ContentWalk.dfy`, `ContentReach.dfy`, `ContentMixed.dfy`, `ContentCollection.dfy`, `ContentResume.dfy`, `ContentOrder.dfy`, `ContentStore.dfy` |
| audit export | `AuditStore.dfy`, `AuditExport.dfy`, `AuditProperties.dfy`, `AuditHistory.dfy`, `AuditMeaning.dfy`, `AuditDirectory.dfy` |
| backups | `BackupFiles.dfy`, `Backups.dfy` |
| plan approval | `Delivery.dfy`, `Approval.dfy`, `ApprovalTexts.dfy`, `ApprovalEnvelopes.dfy`, `ApprovalViews.dfy` |
| canonical bytes | `Framing.dfy`, `PinMembers.dfy`, `ChangeSetPin.dfy` |

## What is proved

- **Coordinator.** Over every interleaving of any number of workers, renewals, expiries, takeovers and
  crashes, the stored environments are those of the committed operations run one at a time. No commit
  overwrites what a later holder stored. Stored evidence never changes, an applied environment always
  has the evidence of its class, and a passed `ensure_held` is good for the whole margin. A worker whose
  renewal failed never passes it again, a crash frees its environments in two minutes, and an operation
  nobody is in the way of can always store.
- **Merging.** Writers off one base with disjoint changes store the same environments in every order.
  Concurrent operations of which at least two change an environment also agree on the status. Beside
  a status-only operation, such as an `advance` with nothing to do, a single change need not, although
  the comment at src/connectivity.rs:2423-2426 says the order does not matter: `IdleAdvanceShowsOrder`
  gives the record, and `SettledExactlyWhen` the exact condition for any number of operations.
- **Content collection.** The worklist ends on any graph and finds exactly the reference closure.
  Nothing a kept release reaches is ever removed, at any cut. That an interrupted run can be finished
  by another is false for several unkept releases (`CrossedReleasesAreNotResumable`); it holds exactly
  when every removable layer that is not a release's own artifact has a referencing manifest later in
  the removal order, which is always so for one unkept release.
- **Audit export.** However the store grew, the exports of a chain hold every record exactly once. The
  last digest fixes the whole chain, an append-only store is never refused, a restored one that lost or
  replaced the last exported row always is, no chain with a forged statement verifies, a history across any key
  rotation verifies exactly when the roots trust each key at its export's end, and ranges cut and join.
- **Backups.** Wherever a run is cut, every published database has a manifest that matches its bytes
  and, with a signing key, our signature of it, and the reported last success is still there. A completed `take` keeps the new backup and exactly the
  newest `retain - 1` others.
- **Approval.** Signals add up over versions, so skipping a listed version hides nothing. An automatic
  envelope is always the live policy's own, unexpired. The explanation and the resolution agree, except
  for envelope paths that hold the words of a missing signer key, as `ExplainedByPolicy` states; every
  answer and every view has its exact condition.
- **Canonical bytes.** Pins and identities are hashed from equal bytes only when they are equal, and
  writing a pin's members in another order changes nothing.

## Assumptions

- All workers read one clock that does not go back, and fencing tokens are never reused. The lease store
  does what src/storage/sqlite_objects/namespaced_leases.rs:7-239 and
  src/storage/sqlite_objects/object_writes.rs:242-272 do, each call atomically.
- Digests are injective where a digest is compared with a digest. `LastDigestCommits` makes no such
  assumption and states the collision instead. A signature made with a key verifies under that key.
- File-system calls happen in order and each either took effect or did not; a process can die between
  any two.
- Versions are ordered by semver's total order, represented by a rank.

## Model

| member | source | states |
|---|---|---|
| `UpgradeOperations.AdvanceLocked` | src/connectivity.rs:377-490 | Advancing steps the environment through the adapter of its class as the specified step does. |
| `UpgradeOutcomes.AdvanceStores` | src/connectivity.rs:377-490 | An advance on an environment that needs work is refused exactly when it was ready for its class and its plan did not apply; otherwise the environment is applied if ready, in conflict if its runtime reconnected, waiting if evidence is missing, its plan is kept, and nothing else changes. |
| `UpgradeOutcomes.AdvanceTransfers` | src/connectivity.rs:412-430 | An advance begins an unverified transfer of the pinned release under its plan and generation where an intermittent environment had none, and changes no other. |
| `UpgradeOutcomes.AdvanceAppliesExactlyWhen` | src/connectivity.rs:406-474 | An advance turns an environment applied exactly when it is the target, needed work, was ready for its class and its plan did apply. |
| `UpgradeOutcomes.OnlyAdvanceApplies` | src/connectivity.rs:305-490 | No other operation applies an environment that was not. |
| `UpgradeOutcomes.IdleAdvanceStores` | src/connectivity.rs:390-404 | An advance with nothing to do changes no environment and restates the status. |
| `UpgradeOutcomes.ResumeStores` | src/connectivity.rs:339-375 | Resuming is refused without a transfer or with other digests, conflicts under another generation, and otherwise verifies the transfer and changes nothing else. |
| `UpgradeSequences.InterruptBegins` | src/connectivity.rs:305-337 | Interrupting is accepted exactly for an intermittent environment that is not applied; it then holds an unverified transfer of the pinned release under the current generation, keeps its plan, and nothing else changes. |
| `UpgradeSequences.TransferNeedsItsGeneration` | src/connectivity.rs:339-448 | Fencing: a transfer begun under one generation is applied only by a resume and an advance under that generation; without the resume the environment waits, under another generation it conflicts and keeps its checkpoint. |
| `UpgradeSequences.BindStores` | src/connectivity.rs:626-771 | Binding is accepted exactly for an isolated environment with the bundle's plan and no other bundle; it stores the bundle's digests and keeps an accepted receipt. |
| `UpgradeSequences.BindOnce` | src/connectivity.rs:646-657 | The same bundle binds again without any change to the record, and no other bundle does. |
| `UpgradeSequences.ReceiptStores` | src/connectivity.rs:1040-1092 | A receipt is accepted exactly for the bound bundle; the first one only adds itself to the evidence. |
| `UpgradeSequences.ReceiptOnce` | src/connectivity.rs:1059-1075 | After the first receipt none changes the evidence: a duplicate keeps the statuses, a different one marks a conflict. |
| `UpgradeSequences.IsolatedNeedsBoth` | src/connectivity.rs:450-474 | Advancing an isolated environment applies it exactly when a bundle is bound and its receipt imported, and otherwise leaves it waiting with its evidence. |
| `UpgradeOperations.RollbackUpgradeLocked` | src/connectivity.rs:1096-1148 | The reverse loop computes the specified rollback, including where it stops. |
| `UpgradeOutcomes.RollbackRefusedExactlyWhen` | src/connectivity.rs:1096-1148 | A rollback stores nothing exactly when the environment its reverse loop stops at met an early return. |
| `UpgradeOutcomes.RollbackMarks` | src/connectivity.rs:1096-1148 | A stored rollback marks the applied, leased environments above the one it stops at rolled back, that one as needing recovery, and leaves everything else. |
| `UpgradeOperations.FindEnvironment` | src/connectivity.rs:1155-1161 | The first environment of that name, or none. |
| `UpgradeProperties.RollbackStoresOneShape` | src/connectivity.rs:1096-1148 | A stored rollback has every applied and leased environment rolled back, or one environment in recovery with all applied ones above it rolled back and all below unchanged; the status says which. |
| `UpgradeProperties.EntryStepKeeps` | src/connectivity.rs:752-765 | No step of any operation changes stored bundle or receipt evidence, or applies an environment without the evidence of its class. |
| `UpgradeProperties.RunStepsEntries` | src/connectivity.rs:305-490 | Every entry an operation stores comes from its own entry, and entries outside the operation's environments stay. |
| `UpgradeProperties.RunIsLocal` | src/connectivity.rs:2184-2315 | On two records that agree on the leased environments an operation succeeds on both or neither, with the same entries there. |
| `UpgradeMerge.MergeUpgrade` | src/connectivity.rs:2402-2439 | The merge loop computes the specified merge of base, modified and current record, or refuses records of another shape. |
| `UpgradeMerge.SoleWriterStores` | src/connectivity.rs:2402-2439 | A writer that was alone since its base stores exactly the environments and status it wrote. |
| `UpgradeMerge.LatestTimeStays` | src/connectivity.rs:2435-2438 | However many writers merge, the stored time is the latest of what was stored and what any of them set. |
| `UpgradeMerge.MergeConfluent` | src/connectivity.rs:2402-2439 | Any number of writers with disjoint changes store the same environments in every order. |
| `UpgradeMerge.TwoWritersAgreeOnStatus` | src/connectivity.rs:2422-2434 | Two writers store the same record in both orders; its status summarizes the merged environments if one of them moved it, and is the base's otherwise. |
| `UpgradeMergeSettled.SeveralChangesSettle` | src/connectivity.rs:2422-2434 | Concurrent operations of which at least two change an environment store the same status in every order: what the merged environments call for, or the old one if nobody moved it. |
| `UpgradeMergeSettled.OneChangeSettlesExactlyWhen` | src/connectivity.rs:2422-2434 | One operation that changes an environment beside status-only ones settles exactly when it sets the status its environments call for or, if it keeps the old one, every operation that moves it sets that. |
| `UpgradeMergeSettled.SettledExactlyWhen` | src/connectivity.rs:2422-2434 | For any number of concurrent operations with disjoint leases, the exact condition for one status in every order, by how many of them change an environment. |
| `UpgradeMergeSettled.OwnStatusIsDue` | src/connectivity.rs:1163-1197 | From base and operation alone: the status an operation sets is the one its environments call for exactly when no other environment is in a worse state, or it aggregates, or it keeps a status that was right. |
| `UpgradeMergeOperations.SummaryMeans` | src/connectivity.rs:1163-1197 | Which environments give the upgrade which status. |
| `UpgradeMergeSettled.RollbackStatusIsDue` | src/connectivity.rs:1096-1148 | A rollback sets the status its environments call for exactly when it halts or every environment was applied or rolled back. |
| `UpgradeMergeSettled.IdleAdvanceShowsOrder` | src/connectivity.rs:390-404 | A concrete record on which an interrupt and an advance with nothing to do store Conflicted in one order and Interrupted in the other. |
| `CoordinatorSafety.StepKept` | src/connectivity.rs:2072-2182 | Every step of any worker, its renewal or the clock keeps the invariant the run theorems below rest on. |
| `CoordinatorSafety.CommitOwns` | src/connectivity.rs:2329-2398 | At a commit the worker still owns every environment it leased, and what it read of them is what is stored. |
| `CoordinatorSafety.CommitIsAtomic` | src/connectivity.rs:2329-2398 | A commit stores what its operation would store if run alone on the record stored at that moment. |
| `CoordinatorRuns.RunsAreSerializable` | src/connectivity.rs:2329-2439 | In every state of every run the stored environments are those of the committed operations run one after the other. |
| `CoordinatorRuns.NoUpdateIsLost` | src/connectivity.rs:2329-2439 | A commit started from the entries stored at that moment and leaves every entry it did not lease as it is. |
| `CoordinatorRuns.MergeNeverRefuses` | src/connectivity.rs:2402-2414 | A worker that re-read the record under a write lease it still holds can always commit. |
| `CoordinatorRuns.EvidenceIsWrittenOnce` | src/connectivity.rs:2415-2421 | A stored bundle digest, receipt digest or receipt is the same in every later stored record of the run. |
| `CoordinatorRuns.AppliedHasEvidence` | src/connectivity.rs:1053-1092 | In every stored record an applied isolated environment has a bound bundle and an accepted receipt, and an applied intermittent one a verified transfer with the release's digests. |
| `CoordinatorRuns.EnsureHeldIsGoodForTheMargin` | src/connectivity.rs:2055-2063 | After `ensure_held` passed, every lease held then stays live under its token for 10 000 ms, also in the middle of a renewal. |
| `CoordinatorRuns.EnvironmentsAreExclusive` | src/connectivity.rs:2072-2165 | No two workers inside their deadlines hold the same environment. |
| `CoordinatorLeases.FailedRenewalStops` | src/connectivity.rs:2124-2153 | In every run, once a renewal of a worker failed its `ensure_held` fails at any time, in every later state. |
| `CoordinatorLeases.FailedRenewalNeverCommits` | src/connectivity.rs:2329-2398 | A worker whose renewal failed before it passed `ensure_held` inside `persist` never commits. |
| `CoordinatorLeases.TokensStayDead` | src/storage/sqlite_objects/namespaced_leases.rs:202-239 | A token that does not hold its lease never holds it again. |
| `CoordinatorLeases.ReleaseFrees` | src/connectivity.rs:2167-2182 | A released lease is at once free for others and never again held by the one that released it. |
| `CoordinatorLeases.GiveUpFreesWrite` | src/connectivity.rs:2389-2397 | A worker that leaves `persist` gives the write lease back. |
| `CoordinatorLeases.CrashFreesInTime` | src/connectivity.rs:2022-2025 | A crashed operation frees its environments within 120 000 ms, whatever its renewal was doing. |
| `CoordinatorProgress.UncontendedCommits` | src/connectivity.rs:2329-2398 | From any state, an operation whose environments and write lease are free has a run that stores exactly what it computes. |
| `CoordinatorProgress.RenewalExtends` | src/connectivity.rs:2124-2153 | A renewal that finds every lease live extends all of them, and the deadline, to 120 000 ms after it asked. |
| `ContentWalk.DrainPending` | src/content_inventory.rs:706-741 | The worklist loop gives exactly the visited digests and the largest depth recorded for each manifest. |
| `ContentWalk.ReleaseLayers` | src/content_inventory.rs:689-752 | The layers and depths of one release, or the refusal the specified walk gives. |
| `ContentWalk.OneGoodCopyIsEnough` | src/content_inventory.rs:720-736 | A walk depends only on which digests have some stored copy with the right bytes. |
| `ContentReach.WalkIsClosure` | src/content_inventory.rs:689-752 | Where each digest is named under one kind of media type, the walk ends on any graph, fails exactly when a manifest in the closure cannot be read, and otherwise finds exactly the closure. |
| `ContentMixed.WalkMissesExactlyWhen` | src/content_inventory.rs:706-741 | Whatever kinds references give a digest, a finished walk finds only what is named, and misses something exactly when a digest met as a blob first, though named as a manifest too, references something not met. |
| `ContentMixed.MixedKindsHideContent` | src/content_inventory.rs:706-712 | A concrete release that names one digest under two media types and so hides what it references. |
| `ContentCollection.InventoryIsClosure` | src/content_inventory.rs:540-589 | The kept and unkept sets are exactly the closures of the kept and of the unkept releases. |
| `ContentCollection.KeptClosureIsSafe` | src/content_inventory.rs:581-629 | Nothing a kept release reaches, and nothing no release names, is ever removed or loses a file, however far the run came. |
| `ContentResume.CutInventory` | src/content_inventory.rs:540-629 | After any cut the inventory still passes, keeps the same items and plans no new ones. |
| `ContentResume.ResumableExactlyWhenParentsLater` | src/content_inventory.rs:590-598 | Every cut can be finished by another run exactly when each removable layer that is not a release's own artifact has a referencing manifest later in the order. |
| `ContentResume.RerunFinishes` | src/content_inventory.rs:590-629 | Under that condition a rerun after any cut ends in the store of an uninterrupted run. |
| `ContentResume.FullRunPurges` | src/content_inventory.rs:599-629 | A full run leaves exactly the store without the removable items. |
| `ContentResume.SecondRunRemovesNothing` | src/content_inventory.rs:540-629 | A second run with unchanged references finds nothing stored to remove. |
| `ContentOrder.SoleReleaseIsResumable` | src/content_inventory.rs:590-598 | With one unkept release every cut can be finished by another run. |
| `ContentOrder.IncreasingDepthsAreResumable` | src/content_inventory.rs:713-716 | With several, recorded depths that increase along references are enough. |
| `ContentOrder.CrossedReleasesAreNotResumable` | src/content_inventory.rs:713-716 | Two concrete releases whose mixed depths let a cut orphan a stored layer. |
| `ContentStore.SortRemovals` | src/content_inventory.rs:590-598 | The removals are listed once each: items without a recorded depth first, then manifests, deepest first, ties in listing order. |
| `ContentCollection.OrderMeans` | src/content_inventory.rs:590-598 | What the removal order says of any two items: blobs before manifests, deeper manifests first, then layers before weights, by digest. |
| `ContentStore.ReadInventory` | src/content_inventory.rs:555-589 | The loop over releases builds the specified kept and unkept sets. |
| `ContentStore.Store.RemoveFiles` | src/content_inventory.rs:599-629 | A run that may delete so many files deletes exactly that many, in order, or all there are, and leaves exactly the store cut at that point. |
| `ContentStore.Store.Collect` | src/content_inventory.rs:540-629 | Collecting refuses exactly when the inventory does or references moved, changes nothing unless applied, deletes in the planned order up to where it is cut, and uncut leaves exactly the store without the removable items. |
| `AuditStore.ReadPages` | src/audit_export.rs:219-273 | Reading page by page, while rows may be added between pages, gives exactly the rows after the cursor in the state the last page saw. |
| `AuditStore.SortedIsOldestFirst` | src/audit_export.rs:275-292 | The entries of an export are in key order, oldest first. |
| `AuditMeaning.SortedByTime` | src/audit_export.rs:275-292 | The times of an export ascend; at one time audit rows come before change rows before usage, each by cursor. |
| `AuditExport.EntriesAfter` | src/audit_export.rs:219-292 | On a growing store, entries and cursors of both sources are those of one state of each source it passed through, oldest first. |
| `AuditExport.CountUsage` | src/audit_export.rs:296-330 | The counting loop over the observed entries gives the five usage records of an export, as specified. |
| `AuditMeaning.UsageMeans` | src/audit_export.rs:296-330 | The usage records count, in decimal, the distinct environments and the applied plans of the change rows. |
| `AuditMeaning.ExportHoldsUsage` | src/audit_export.rs:334-392 | Besides rows, an export holds exactly the usage records of the rows it observed. |
| `AuditExport.VerifyChain` | src/audit_export.rs:575-681 | The loop accepts exactly the chains whose every export is well formed, signed with a key that is listed, valid then and not revoked, and linked to the one before. |
| `AuditMeaning.AcceptedExactlyWhen` | src/audit_export.rs:575-681 | When a chain verifies, told from signatures, listed keys with their windows, revocations, cursors, sequence numbers and digests. |
| `AuditMeaning.AcceptedIsAuthentic` | src/audit_export.rs:575-681 | If signatures verify only for what was signed, every statement of a verified chain was signed, with a key listed, valid at its end and not revoked. |
| `AuditMeaning.ForgedIsRefused` | src/audit_export.rs:575-681 | One export whose signature does not verify, or whose key is not trusted, has the whole chain and any range of it refused. |
| `AuditExport.VerifyRange` | src/audit_export.rs:189-209 | A range is accepted exactly when its bounds match and its exports verify as a chain on the anchor. |
| `AuditMeaning.RangeAcceptedExactlyWhen` | src/audit_export.rs:152-209 | When a range verifies, told from its bounds, its length of at most 1000 and its exports. |
| `AuditMeaning.AcceptedRangeIsAuthentic` | src/audit_export.rs:189-209 | The same authenticity for every export of a verified range. |
| `AuditProperties.LastDigestCommits` | src/audit_export.rs:575-681 | Two whole chains that verify and end on the same digest hold the same statements in the same order, or contain a digest collision. |
| `AuditProperties.NoRecordInTwoExports` | src/audit_export.rs:632-676 | In a verified chain every record of a later export lies past every record of an earlier one of its source. |
| `AuditMeaning.PeriodsAscend` | src/audit_export.rs:632-676 | In a verified chain periods follow each other without overlap. |
| `AuditProperties.SlicesAreRanges` | src/audit_export.rs:152-209 | A contiguous slice of a verified chain verifies as a range exactly when it has at most 1000 exports and does not start at sequence 0. |
| `AuditProperties.RangesConcatenate` | src/audit_export.rs:152-209 | Two verified ranges join to a verified one exactly when the second links to the end of the first, within the limit. |
| `AuditHistory.GrowingStoreContinues` | src/audit_export.rs:406-466 | A store that only grew is never refused as the wrong one. |
| `AuditMeaning.ContinuesExactlyWhen` | src/audit_export.rs:395-466 | An export after another is made exactly when the end is not earlier and both sources still hold, at the last cursor, a row with the recorded fingerprint. |
| `AuditMeaning.RestoredStoreIsRefused` | src/audit_export.rs:402-426 | After any history, a store that lost the last exported row of a source, or holds another there, is never exported from. |
| `AuditHistory.ExportHoldsNewRows` | src/audit_export.rs:334-392 | An export holds exactly the audit and change rows after its cursors, once each. |
| `AuditHistory.ExportExtendsChain` | src/audit_export.rs:356-392 | Appending an export to a chain that verifies gives one that verifies exactly when the roots trust its key at its end and it is not revoked. |
| `AuditHistory.ExporterTrustsItself` | src/audit_export.rs:554-569 | The exporter's own roots trust its key exactly unless it is revoked or an extra root lists that key first, outside its window. |
| `AuditHistory.HistoryGoesOn` | src/audit_export.rs:334-426 | After any history of exports, under any keys, the next one is made exactly when its end is not before the last one's. |
| `AuditHistory.ExportsCoverExactlyOnce` | src/audit_export.rs:219-392 | The exports of a history, across any key rotation, together hold every audit and change record of the last store read exactly once. |
| `AuditHistory.HistoryVerifiesExactlyWhen` | src/audit_export.rs:575-681 | A history of exports, each under its own key, verifies as one chain exactly when every key is trusted at its export's end. |
| `AuditDirectory.ExportSince` | src/audit_export.rs:334-392 | The steps of `export` give exactly the specified export or refusal. |
| `AuditDirectory.Directory.ReadChain` | src/audit_export.rs:482-494 | Every export of the directory is listed by sequence, whatever its file is called; a chain is read back as it was. |
| `AuditDirectory.Directory.ExportNext` | src/audit_export.rs:467-504 | A directory whose exports do not verify as one chain is never continued, a refusal changes nothing, no file is replaced, and on a chain that verifies the next export is exactly the one specified. |
| `AuditDirectory.NextExportExactlyWhen` | src/audit_export.rs:467-504 | On a directory with a history, a store that only grew is exported exactly when the roots still trust every earlier key and the end is not before the last; the longer chain verifies exactly when they trust the new key too. |
| `BackupFiles.DropsOldest` | src/backup.rs:346-366 | Dropping all but the first `retain - 1` of the others, newest first, is the retention rule. |
| `BackupFiles.PublishedPassesItsDrill` | src/backup.rs:506-538 | Every published database still there passes the checks of its drill, against trust roots if it was signed. |
| `BackupFiles.DrillProvesTheBytes` | src/backup.rs:506-538 | Whatever was done to the directory, a database that passes a drill against trust roots is one published with the key, byte for byte. |
| `Backups.BackupSet.WriteDurable` | src/backup.rs:779-802 | Until the rename only a temporary differs; afterwards the file holds the new content, whatever fails next. |
| `Backups.BackupSet.RemoveIncomplete` | src/backup.rs:465-499 | At any cut only temporaries, and own manifests and signatures whose database is gone, were removed; when it completes none is left. |
| `Backups.BackupSet.WriteBackup` | src/backup.rs:288-341 | At any cut every published database has a matching manifest and, with a signing key, our signature of it; on success a new one appeared under a free name; without a key no signature is written; a taken name is refused. |
| `Backups.BackupSet.Prune` | src/backup.rs:346-366 | The reported backup stays, only files of others go, and a completed pass keeps the newest `retain - 1` of them and leaves no file of the rest. |
| `Backups.BackupSet.PruneReported` | src/backup.rs:231-244 | When one call of the retention pass fails, the status records it and still reports the new backup. |
| `Backups.BackupSet.Take` | src/backup.rs:208-245 | However it ends, published databases have their manifests and signatures and the last success is there; nothing is pruned before the new backup is reported; databases without a manifest are left alone; without a key no signature appears; success leaves the described, signed backup and the newest `retain - 1` others. It succeeds when no call fails and the name is free, and records a failure when the name is taken. |
| `Backups.BackupSet.RecordEvidence` | src/backup.rs:400-458 | Evidence is accepted, when no call fails, exactly if it is well formed, from a time up to five minutes ahead, and no own backup lies there; the newer of it and the last success is then reported, and nothing else changes. |
| `Delivery.DeliverySignalsForPlan` | src/approval_policy.rs:1098-1152 | The nested loops give the merged signals of every release the plan crosses. |
| `Delivery.PlanMeans` | src/approval_policy.rs:1093-1152 | A plan raises a signal exactly when one of its steps moves to, through or back over a release that declares it. |
| `Delivery.StepSplits` | src/approval_policy.rs:1118-1148 | Going through a version raises what going straight does plus what that version's own release object declares, so both are equal exactly when that object adds nothing. |
| `Delivery.UpgradeAddsUp` | src/approval_policy.rs:1098-1152 | An upgrade over a listed version raises exactly the signals of the two upgrades through it. |
| `Delivery.ReversalAddsUp` | src/approval_policy.rs:1098-1152 | A downgrade or rollback reverses a migration exactly when one of its two parts does. |
| `Delivery.UnlistedVersionIsSkipped` | src/approval_policy.rs:1110-1113 | A concrete catalog in which a version read by id but not listed is missed by the straight upgrade. |
| `Approval.QuorumRule` | src/approval_policy.rs:378-419 | The rule is an applicable one that no applicable rule exceeds in specificity and then in signers, or one signer when none applies. |
| `Approval.AutomaticExactlyWhen` | src/approval_policy.rs:289-351 | A policy approves a plan by itself exactly when it is in automatic mode, no gate is skipped, one signer is enough, no listed product is touched, and every step goes forward, off the host, over releases that declare neither migration nor identity change. |
| `ApprovalViews.ReasonIsTrue` | src/approval_policy.rs:289-351 | The reason a policy gives for asking a human holds of the plan and the releases it crosses. |
| `ApprovalViews.QuorumIsMostSpecific` | src/approval_policy.rs:374-419 | The rule chosen names the highest criticality any applicable rule names and, at that level, the most signers; with none applicable, one signer. |
| `ApprovalViews.AppliesExactlyWhen` | src/approval_policy.rs:384-394 | A rule applies to its own purpose, from its own level of criticality on. |
| `Approval.StricterRuleStops` | src/approval_policy.rs:374-408 | An applicable rule for several signers stops automatic approval unless a more specific applicable rule lifts it. |
| `Approval.SkippingHidesNothing` | src/approval_policy.rs:289-351 | Inside any plan, one upgrade and the two upgrades through a listed version get the same decision. |
| `ApprovalEnvelopes.SignedIsLive` | src/approval_policy.rs:443-503 | An automatic answer means the live policy decides so now and the envelope is unexpired with its digest and key. |
| `ApprovalEnvelopes.SignedCrossesNoMigration` | src/approval_policy.rs:455-503 | An automatic answer on a plan's own signals never lets it skip gates, go back, run on the host or cross a declared migration or identity change. |
| `ApprovalEnvelopes.FilesAreKept` | src/approval_policy.rs:470-503 | A human's envelope is honoured and never overwritten; an answer other than signed leaves the file or a torn one. |
| `ApprovalViews.NeedsHumanExactlyWhen` | src/approval_policy.rs:455-503 | Exactly when resolving asks for a human: nobody else signed, and the policy does not approve, or its key does not load, or a due envelope cannot be written and the error is taken for a missing key. |
| `ApprovalViews.SignedExactlyWhen` | src/approval_policy.rs:455-503 | Exactly when a plan may run: someone else signed, or the policy approves and its envelope is current or was written. |
| `ApprovalViews.FreshEnvelope` | src/approval_policy.rs:965-1005 | A new envelope is bound to the plan, its environment, the gates, the policy and the key, and lasts the time of the policy. |
| `ApprovalTexts.WriteTextSays` | src/approval_policy.rs:960-963 | For every path, the error text of a failed envelope write reads like a missing signer key exactly when the path itself holds those words. |
| `ApprovalTexts.MissingKeySays` | src/approval_policy.rs:1007-1014 | The error text of a missing signer key is recognised for every path. |
| `ApprovalTexts.SeedTextSays` | src/approval_policy.rs:1007-1046 | For every fault of a signer key and every path, the error reads like a missing key exactly when it is missing or the path says so. |
| `ApprovalEnvelopes.ExplainedByPolicy` | src/approval_policy.rs:822-933 | A waiting plan explained by policy resolves to a human exactly when a fresh envelope must be written, the write fails and the envelope's path holds `signer key` and `missing` or `not found`. |
| `ApprovalEnvelopes.ExplanationAgrees` | src/approval_policy.rs:822-933 | Without such a path the resolution never asks for a human, and signs when the write succeeds. |
| `ApprovalEnvelopes.StaleIsReplaced` | src/approval_policy.rs:918-930 | For a recorded automatic approval, what the explanation calls stale is exactly what resolving replaces, except at the millisecond of expiry, where it is replaced without being called stale. |
| `ApprovalViews.ByDevelopmentExactlyWhen` | src/approval_policy.rs:833-850 | Exactly when a plan is explained by local development. |
| `ApprovalViews.ByHumanExactlyWhen` | src/approval_policy.rs:851-877 | Exactly when, and by whom, a plan is explained as approved by a human. |
| `ApprovalViews.ByPolicyExactlyWhen` | src/approval_policy.rs:878-958 | Exactly when a plan is explained as approved by policy, trust roots included. |
| `ApprovalViews.RequiredExactlyWhen` | src/approval_policy.rs:822-933 | Exactly when approval is explained as required. |
| `ApprovalViews.RequiredIsUnsigned` | src/approval_policy.rs:455-933 | For a waiting plan without a human approval, on a host that signs, approval is explained as required exactly when resolving signs nothing. |
| `ApprovalEnvelopes.PathCanMislead` | src/approval_policy.rs:960-963 | With an approval directory called `signer key missing` and a failed write, explanation and resolution differ. |
| `ApprovalEnvelopes.Approvals.ResolveAutoEnvelope` | src/approval_policy.rs:455-503 | The directory changes only at the plan's own envelope, as specified, and no automatic envelope ever allows skipping gates. |
| `Framing.FramesPrefixFree` | src/signature_verification.rs:18-21 | Frames of as many texts are equal only for equal texts, whatever bytes follow. |
| `Framing.IdentityPayload` | src/connectivity.rs:1349-1367 | The loops build exactly the specified bytes of an upgrade identity. |
| `Framing.IdentityInjective` | src/connectivity.rs:1349-1367 | Equal identity bytes come only from equal names, pins and environment lists. |
| `PinMembers.Canonical` | src/change_set_pin.rs:260-267 | Sorting keeps every member, once each, and puts them in order of kind and id. |
| `PinMembers.SameCanonicalExactlyWhenReordered` | src/change_set_pin.rs:260-267 | Members without a repeated key sort to the same list as exactly their reorderings. |
| `PinMembers.TextLessExactlyWhen` | src/change_set_pin.rs:260-267 | The key order is that of the first byte that differs, a missing byte first. |
| `PinMembers.AscendingExactlyWhenDistinct` | src/change_set_pin.rs:260-267 | Members sort into strictly ascending order exactly when no two share kind and id. |
| `ChangeSetPin.DigestInput` | src/change_set_pin.rs:237-258 | The loops build exactly the specified bytes of a pin. |
| `ChangeSetPin.PinInjective` | src/change_set_pin.rs:237-258 | Equal pin bytes come only from equal pins. |
| `ChangeSetPin.ValidateMembers` | src/change_set_pin.rs:426-450 | Comparing neighbours accepts exactly 1 to 32 valid members in strictly ascending key order. |
| `ChangeSetPin.SectionAcceptedExactlyWhen` | src/change_set_pin.rs:213-235 | A section, its members in any order, is accepted exactly when every text of its header is right and it has 1 to 32 valid members of which no two share kind and id. |
| `ChangeSetPin.EvidenceLoadsExactlyWhen` | src/change_set_pin.rs:314-361 | Evidence loads exactly when schema, status and header are right, it has at most 32 members and, unless incomplete, they are valid, at least one, and no two share kind and id. |
| `ChangeSetPin.ReorderedSection` | src/change_set_pin.rs:213-235 | Member order changes neither whether a section is accepted nor its pin. |
| `ChangeSetPin.SameBytesExactlyWhenReordered` | src/change_set_pin.rs:213-258 | Two accepted sections have equal digest bytes exactly when they differ at most in member order. |
| `ChangeSetPin.AdmittedExactlyWhenAccepted` | src/change_set_pin.rs:363-424 | A section is admitted exactly when it is valid and authorized, accepted evidence names the same header and members, in any order. |
| `ChangeSetPin.EvidenceFixesDigest` | src/change_set_pin.rs:363-424 | One evidence document admits sections of one digest only. |
| `ChangeSetPin.StoredExactlyWhenAdmitted` | src/change_set_pin.rs:168-206 | What is admitted reads back, and what reads back is exactly what admitting it again stores. |

## Left out

- Threads: the lease protocol is a step system over values; locks, the renewal task and the lease database are its steps, not shared memory.
- Lease takeover by an operator: `takeover_namespaced_lease` is not called by the coordinator; takeover here is acquiring an expired lease.
- First install, bundle staging, scanning, file modes and catalog admission of isolated stacks: I/O around the operations modelled.
- Applying a plan, fetching a release and checking a receipt's signature: their outcomes are parameters of the operations.
- Texts: details, reasons and error messages are constructors without wording, except the errors of `sign_auto_approval`, whose wording decides a branch.
- AuditDirectory.ExportSince: checks continuity and reads on one state of the store; `EntriesAfter` covers rows added while it reads.
- Revocation lists: which keys are revoked is given; how they are loaded is not modelled.
- Kept references: which releases are kept is given per release, not computed from channels, deployments and unfinished upgrades.
- File sizes and free space of content stores: totals for display.
- ContentReach.WalkIsClosure: assumes one media kind per digest, because the walk dedups on the digest alone; `ContentMixed.WalkMissesExactlyWhen` covers every other case. The collection results build on it.
- Mapping store rows to audit entries, and JSON, TOML, base64, SHA-256 and Ed25519: foreign encodings.
- Fingerprint: joined fields are compared as the joined text, as the code does; that two rows could share one is not excluded.
- Sequence numbers and cursors are unbounded; the 64-bit limits are modelled for lease times and envelope expiry only.
- Backups.BackupSet.RecordEvidence: does not model saturation of the clock at the 64-bit limit; name, tool and digest checks are one flag.
- The restore itself in a drill, the validity window of a backup signer, backup health, and the order in which a disk persists calls after power loss.
- ApprovalEnvelopes.SignedIsLive: the plan digest inside a reused envelope is checked where plans are executed, which is not modelled.
- Recording, revocation and multi-party counting of human approvals; waves and preflight rules of a policy.
- ChangeSetPin: checks on single texts (identifier, digest, member kind) are arbitrary predicates, so every result holds for any such checks.
- Credentials, clock guard, canary evaluation, change streams and catalog wiring: independent checks that share no state with the parts modelled.
