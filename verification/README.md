# A verified model of oxidrive's sync protocol

oxidrive keeps a local folder and a Google Drive folder the same from any number of
devices. This project models how it decides what to do with a path, how it carries the
decision out, what it keeps in its database across crashes, and how it sees the Drive
tree, and it proves what these parts promise together.

| file | what it models |
|---|---|
| `Text.dfy`, `Ordering.dfy`, `Wrappers.dfy`, `Naming.dfy` | string surgery, ordered enumeration, options and results, the free-name search |
| `Coordination.dfy` | version vectors: order, merge, text form, the bounded form of app properties |
| `Paths.dfy`, `Glob.dfy`, `Records.dfy` | relative paths and conflict-copy names, ignore patterns, records, fingerprints, export names |
| `Decision.dfy`, `Settle.dfy`, `Copies.dfy` | the reconciliation matrix and the revision guard; one successful action settles a path; what becomes of a conflict copy |
| `Protocol.dfy`, `Policies.dfy`, `Progress.dfy`, `Causality.dfy` | runs of many devices on one Drive object: no version is lost; when exactly the one-sided policies lose one; how all devices come to hold the same content; what a version vector counts |
| `Persistence.dfy`, `Journal.dfy`, `CrashRuns.dfy`, `Deletes.dfy` | saving and loading, the crash journal and its recovery, whole runs with crashes, the delete operations write by write |
| `Tombstones.dfy` | delete confirmation across cycles |
| `Listing.dfy`, `DriveTree.dfy` | local names in a folder, the breadth-first listing |
| `RemoteView.dfy`, `Placing.dfy`, `ViewAgreement.dfy`, `IncrementalListing.dfy` | the incremental view, where it puts a change, and its agreement with the listing |
| `Upload.dfy`, `Folders.dfy`, `Limiter.dfy` | the resumable upload loop, folder creation, request pacing |

Contents are identified by their MD5. Time stamps are integers, encodings are partial
functions that decode what they encoded, and a write transaction is atomic. What Drive,
the file system and the clock answer is a parameter, so every statement holds for all
answers. Code that updates state in place is a method proved against a function of the
old state; the properties are lemmas about that function.

Drive is assumed to behave as `Protocol.Lawful` says: within one object a media write is
a new revision, two revisions never share a head revision id or a modification time, and
the version number changes with every change; which of these fields Drive exposes, and
whether it exposes an MD5, is a parameter. Every edit is assumed to make new content.

No version is lost under a policy that keeps both sides. Under `local_wins` and
`remote_wins` a replaced version can be lost although another device still holds it, since
later syncs of that device replace it; the exact condition is in `Policies.dfy`, with a
losing run.

## Where code and documentation differ

The model follows the code. These differences are stated as lemmas.

- The documentation (`docs/architecture/multi-user.md:75`) says that a conflict copy
  propagates to the other devices and that deleting it propagates too. The record of a
  copy keeps the Drive id of the original. So an untouched copy is never uploaded
  (`Copies.UntouchedCopyIsNotUploaded`), an edited one is uploaded over the original, or
  as a new file once the original is gone (`Copies.EditedCopyGoesToTheOriginal`), and in
  an incremental view removing the copy plans a delete of the original
  (`Copies.RemovingACopyTargetsTheOriginal`).
- The comment at `src/sync/coordination.rs:170-173` calls a trimmed vector more
  conservative. A trimmed vector only looks older (`TrimmingLooksOlder`).
- A 308 answer without a `Range` header counts as full acceptance
  (`src/drive/upload.rs:351`), so the client runs ahead of a server that holds nothing and
  takes nothing (`UploadResumableBytes`).
- A trashed change of an unknown object removes whatever is listed at its computed path
  (`AppliedKeepsOthers` says exactly when).
- Equal checksums without a record are skipped without making one, so a later change on
  Drive is a conflict for that device (`Decision.ConflictMeaning`); this is why devices
  without records need more rounds to converge.
- A download describes the row of the listing, not the state it downloaded; with an old
  listing the device can stay apart from Drive (`Progress.StaleRecordStaysApart`).
- A downloaded folder gets no record and is downloaded again in every cycle
  (`SettledIffMirrored`).

## Model

| member | source | states |
|---|---|---|
| Protocol.NoVersionIsLost | src/sync/executor.rs:639-762 | with a policy that keeps both sides, in every run of any number of devices, local and web edits, stale listings, partial transfers and lost records, every version nobody edited on top of stays readable on a device, on Drive or in a copy |
| Protocol.ReplacementIsSafe | src/sync/executor.rs:166-284 | in such a run a sync replaces remote content only when it is what the device's record describes or was just copied, and local content only when it is the recorded content |
| Protocol.ConsiderateRunsLoseNothing | src/sync/executor.rs:639-762 | the same under any policy, for runs in which each one-sided write replaces only content that was saved as a copy or edited on top of, or that Drive has afterwards |
| Policies.LocalWinsIsExact | src/sync/executor.rs:1593-1602 | after a `local_wins` write that got past the media, some continuation loses the replaced content exactly when it was neither saved as a copy nor edited on top of, whatever devices still hold it |
| Policies.InconsiderateStepsCanLose | src/sync/executor.rs:1593-1610 | the condition of `ConsiderateRunsLoseNothing` is exact: after every step that breaks it some continuation loses the version that the step replaced |
| Policies.OutdatedHoldersLoseIt | src/sync/decision.rs:129-243 | when every device that holds a version is in sync with an earlier state of Drive, one plain download by each of them loses it |
| Policies.LocalWinsLosesInARun | src/sync/executor.rs:1593-1602 | a run from the start, for any two different contents, in which the first sync under `local_wins` loses the web's version |
| Policies.RemoteWinsIsExact | src/sync/executor.rs:1603-1610 | after a `remote_wins` write some continuation loses the replaced local content exactly when it was neither saved as a copy nor edited on top of |
| Protocol.LocalWinsLeavesReadable | src/sync/executor.rs:1593-1602 | right after a completed `local_wins` write the replaced content is readable exactly when a copy, a version on top of it or a device has it |
| Protocol.RemoteWinsLeavesReadable | src/sync/executor.rs:1603-1610 | right after a completed `remote_wins` write the replaced local content is readable exactly when a copy, a version on top of it or another device has it |
| Protocol.GuardIdentifiesContent | src/drive/upload.rs:77-91 | in every lawful history of the object, with whatever metadata Drive exposes, a guard that matches the recorded state identifies its content |
| Protocol.GuardAfterWrite | src/drive/upload.rs:77-91 | a guard that matches after a write matched before it, or the content it was recorded for had been replaced and came back |
| Decision.GuardByTime | src/drive/upload.rs:77-91 | a record without revision, version and fingerprint guards by its time if it has one |
| Protocol.NextKeepsInv | src/sync/executor.rs:876-1120 | each step of a device, a user or the web keeps the invariant behind these results, whatever stage a transfer reaches, as long as a one-sided write is one that `ConsiderateRunsLoseNothing` admits |
| Progress.DevicesConverge | src/sync/decision.rs:150-243 | when nobody edits, as many rounds of completed syncs as there are devices, and one more, bring every device to the content on Drive, in any order and whatever they held before |
| Progress.RecordedDevicesConverge | src/sync/decision.rs:150-243 | two rounds are enough when every device has a record |
| Progress.UploadsOnce | src/sync/executor.rs:876-1120 | without edits a device uploads at most once |
| Progress.ConvergedStays | src/sync/decision.rs:162-164 | once all devices are in step no sync changes Drive or takes a device out of step |
| Progress.CompletedSyncMeets | src/sync/executor.rs:639-762 | a completed sync with a current listing leaves its device in step with Drive, by taking Drive's content or putting its own there |
| Progress.InStepExactly | src/sync/decision.rs:160-180 | whatever the record, exactly one case does not end in step: file and row are as recorded and the contents differ |
| Progress.StaleRecordStaysApart | src/sync/executor.rs:1237-1363 | a run from the start in which a listing from before a web edit leaves a device apart from Drive while the decision for it is `Skip` |
| Progress.TimelyRunsHaveTrueRecords | src/sync/executor.rs:639-762 | without such listings every record is of the content that it was made with, which is what the results above assume |
| Progress.EditReachesDrive | src/sync/decision.rs:173-176 | a completed sync of an edit whose row is as recorded puts the edit on Drive |
| Progress.RemoteChangeReachesDevice | src/sync/decision.rs:165-172 | a completed sync of a changed row brings it to a device whose file is as recorded |
| Progress.ReplacedIsCopied | src/sync/executor.rs:876-1120 | an upload whose guard does not match, or that settles a conflict by keeping both sides, leaves what it replaces in a copy |
| Progress.StoppedUploadLeaves | src/sync/executor.rs:956-1120 | an upload that stops after the media leaves the content under the old vector, after the properties under the new one, and the old record in both cases |
| Progress.StoppedDownloadLeaves | src/sync/executor.rs:1336-1362 | a download that stops after the file leaves the old record beside the new content |
| Decision.SkipMeaning | src/sync/decision.rs:150-349 | nothing is done exactly when nothing is there, both sides are as recorded, equal checksums have no record, or an untouched file's object is listed elsewhere; plain and converted alike |
| Decision.UploadMeaning | src/sync/decision.rs:173-215 | a file is uploaded exactly when it is new, or edited while its row is as recorded or missing, or edited on both sides with a row that the vectors do not put ahead; onto the recorded object, else the listed one, else a new one |
| Decision.DownloadMeaning | src/sync/decision.rs:165-238 | a row is downloaded exactly when it is new or changed and there is no edit to lose |
| Decision.DeleteMeaning | src/sync/decision.rs:201-235 | a side is deleted exactly when the other is gone and this one is as recorded; a local file not while its object is listed |
| Decision.RecordOnlyMeaning | src/sync/decision.rs:169-240 | only the record is refreshed exactly when size or time differ and nothing else; only it is dropped exactly when nothing but it is left |
| Decision.ConflictMeaning | src/sync/decision.rs:109-199 | a conflict arises exactly when both sides have content of their own and neither checksums nor vectors settle it |
| Decision.ConflictNamesBoth | src/sync/decision.rs:351-370 | it names both contents and resolves by the policy, with a suffix that ends in the time stamp |
| Decision.RecordedContent | src/sync/decision.rs:55-65 | a row counts as recorded exactly when it has the checksum, or without one the time, of the row that was synced |
| Decision.PlainIsUnconverted | src/sync/decision.rs:252-300 | the converted decision without an export baseline is the plain one |
| Decision.LocalBytesAtRiskAreRecorded | src/sync/decision.rs:150-243 | a download over, or a delete of, a local file is decided only when the file is the recorded one |
| Decision.DualChangeUploadsOnlyBehind | src/sync/decision.rs:109-127 | when both sides changed, the file is uploaded exactly when the remote vector is below or equal to the stored one and not both are empty; otherwise it is a conflict |
| Causality.VerdictMeaning | src/sync/decision.rs:109-127 | in every run of uninterrupted syncs the verdict is `Equal` or `Dominates`, and `Dominates` exactly when another device completed an upload since this device's last transfer |
| Causality.NextVectorCounts | src/sync/executor.rs:936-954 | the vector that an upload writes counts exactly one upload more than the remote one |
| Settle.SettledIffMirrored | src/sync/decision.rs:277-349 | after any decided action succeeded, the next decision for the path is `Skip` exactly when what was downloaded, if anything, is mirrored at its own path; Workspace exports included |
| Settle.ListedNameIsMirrored | src/drive/types.rs:133-161 | a Workspace file listed under its export name is mirrored there |
| Settle.DeleteSettlesIffSameObject | src/sync/decision.rs:223-235 | a remote delete that names the recorded id settles the path if the listed object has that id, else the next decision downloads the listed one |
| Settle.EditedMeaning | src/sync/engine.rs:78-105 | against an unchanged row, an export is uploaded exactly when it differs from the last export, any other file when it differs from its record |
| Settle.UploadTouchesItsObject | src/sync/executor.rs:876-1120 | an update changes only the row of its object, a new file is added to the listing |
| Copies.UntouchedCopyIsNotUploaded | src/sync/executor.rs:213-222 | an untouched conflict copy with nothing listed at its path is skipped while the original exists and deleted locally once it is gone |
| Copies.EditedCopyGoesToTheOriginal | src/sync/executor.rs:213-222 | an edited copy is uploaded onto the original's id while that is listed, and as a new file otherwise |
| Copies.RemovingACopyTargetsTheOriginal | src/sync/engine.rs:527-563 | with the row that the incremental view makes of the copy's record, removing the copy plans a delete of the original; after a full listing only a metadata cleanup |
| Copies.RemovedCopyReachesTheOriginal | src/sync/executor.rs:471-609 | when incremental cycles observe the delete that they plan for a removed copy, the delete of the original is attempted within `required + 1` cycles |
| Coordination.MergeIsLeastUpperBound | src/sync/coordination.rs:117-129 | merge is the least upper bound of the pointwise order |
| Coordination.CompareFlips | src/sync/coordination.rs:137-165 | swapping the arguments swaps `Dominates` and `DominatedBy` and keeps the other verdicts |
| Coordination.BelowIsAPreorder | src/sync/coordination.rs:137-165 | the pointwise order is a preorder, and vectors below each other have the same counts |
| Coordination.IncrementIsStrict | src/sync/coordination.rs:109-115 | incrementing an unsaturated counter makes the vector dominate the old one |
| Coordination.VersionVector.Dominance | src/sync/coordination.rs:137-165 | the flag loop decides the pointwise order |
| Coordination.VersionVector.Merge | src/sync/coordination.rs:117-129 | the merge loop computes the pointwise maximum |
| Coordination.VersionVector.ParseText | src/sync/coordination.rs:33-56 | the parse loop computes `Parse`, whose meaning is `ParseMeaning` |
| Coordination.VersionVector.Display | src/sync/coordination.rs:220-231 | the printed text is the ordered entries joined by semicolons |
| Coordination.VersionVector.BoundedAppPropertyValue | src/sync/coordination.rs:174-217 | the removal loop stops at the first text that fits |
| Coordination.ParseMeaning | src/sync/coordination.rs:33-56 | a device has the greatest count of any well-formed segment for it, and is absent without one |
| Coordination.PrintRoundTripsExactlyWhenClean | src/sync/coordination.rs:220-231 | parsing the printed vector gives it back exactly when its names survive the text form and its counts fit 64 bits |
| Coordination.ParsePrintParse | src/sync/coordination.rs:33-56 | for every string, parse after print after parse is parse |
| Coordination.BoundedDropsShortestPrefix | src/sync/coordination.rs:174-217 | the bounded form fits and drops the shortest prefix of the removal order that makes it fit |
| Coordination.RemovalOrderIsSorted | src/sync/coordination.rs:185-193 | the removal order is by count, then device, over everything but the origin |
| Coordination.BoundedReadsBack | src/sync/coordination.rs:174-217 | the bounded text parses back to exactly the kept entries, which are below the original |
| Coordination.BoundedKeepsOrigin | src/sync/coordination.rs:174-217 | the origin's own entry stays whenever it fits alone |
| Coordination.TrimmingLooksOlder | src/sync/coordination.rs:170-173 | a trimmed vector never compares as ahead of or concurrent with the untrimmed one |
| Coordination.PatchNeverErases | src/sync/coordination.rs:91-106 | no patch writes an empty value or erases the stored vector, and an untrimmed write reads back |
| Paths.PathWithSuffixInjective | src/sync/executor.rs:1580-1591 | for every suffix, copies of different paths have different paths |
| Paths.PathWithSuffixMeaning | src/sync/executor.rs:1580-1645 | the suffix stands behind the stem, in the same directory and before the extension |
| Paths.PathWithSuffixNeverOriginal | src/sync/executor.rs:1580-1591 | a non-empty suffix never gives back the original path |
| Paths.PathWithSuffixKeepsSafe | src/types.rs:27-40 | a suffix without separators keeps a safe path safe |
| Paths.ConflictCopyStaysSafe | src/sync/executor.rs:1555-1591 | whatever the device is called, its conflict copy of a safe path is safe and not the original |
| Paths.DeviceComponentMeaning | src/sync/executor.rs:1563-1578 | the device part is never empty, has only plain characters and no dash at its ends; a name that is so already is kept, and one with nothing plain in it becomes `device` |
| Paths.RunBecomesDash | src/sync/executor.rs:1563-1572 | a run of other characters becomes one dash |
| Paths.SafeMeaning | src/types.rs:27-40 | a path is safe exactly when it is joined from proper names, and is no drive path and has no NUL |
| Glob.GlobMatch | src/sync/scan.rs:43-74 | the single-anchor loop terminates and returns true exactly when the declarative relation holds |
| Glob.StarMeaning | src/sync/scan.rs:41-74 | in that relation `*` stands for any run without a separator |
| Glob.MatchMeaning | src/sync/scan.rs:38-40 | a text matches exactly when it can be cut into one piece per pattern character: `*` a run without a separator, `?` one character but a separator, others themselves |
| Glob.SubtreeMeaning | src/sync/scan.rs:22-29 | a rule ending in `/**` covers the named directory and what is below it, and nothing else |
| Glob.GlobRuleMeaning | src/sync/scan.rs:30-37 | every other rule is a glob on the whole path when it has a separator, else on the last name |
| Glob.BlankRuleMatchesNothing | src/sync/scan.rs:19-21 | a blank rule ignores nothing |
| Glob.RuleScopes | src/sync/scan.rs:18-38 | a rule without a separator applies in every directory, and a rule ending in `/**` to everything below what it matches |
| Records.FingerprintMeaning | src/drive/types.rs:47-52 | equal fingerprints mean equal checksums, or equal times when there is no checksum |
| Records.LocalSyncNameIsStable | src/drive/types.rs:155-161 | naming an already converted name again changes nothing |
| Records.SyncNameMeaning | src/drive/types.rs:133-200 | only documents, sheets, slides and drawings are renamed, and only to carry their export extension |
| Records.WorkspaceMeaning | src/drive/types.rs:220-222 | a Workspace type is any in Google's own name space but the folder |
| Records.ConvertedPathMeaning | src/sync/executor.rs:1647-1658 | the converted path is the path itself when its file name carries the extension, else the path with it |
| Persistence.PrepareTable | src/store/session.rs:376-394 | upserts and stale keys turn any table with the existing keys into exactly the storable rows, and it fails exactly when a row cannot be encoded |
| Persistence.LoadTable | src/store/session.rs:187-212 | the loop over the rows in key order loads a path exactly when some spelling of it has a readable row, with the value of the last such spelling; under normal keys that is each readable row |
| Persistence.Redb.ReplaceSessionState | src/store/db.rs:734-844 | tables, page token and journal cleanup change in one durable state |
| Persistence.Session.Persist | src/store/session.rs:330-370 | a save makes one commit whose tables are the storable memory, or changes nothing |
| Persistence.Session.LoadFromRedb | src/store/session.rs:187-322 | the session is what the four tables load to, whatever the spelling of their keys, and exactly their readable rows when the keys are normal |
| Persistence.SpellingsCollapse | src/store/session.rs:187-495 | one load and save turns any spellings into normal keys and keeps what is loaded |
| Persistence.SavedKeysAreNormal | src/store/session.rs:372-495 | after any save the keys of the four tables are normal |
| Persistence.SaveLoadRoundTrip | src/store/session.rs:372-495 | loading after a save gives the storable part of the memory, and saving that again changes nothing |
| Persistence.PersistedMeaning | src/store/session.rs:372-495 | a save stores rows for exactly the safe paths in memory, sessions up to 16 KiB, folder ids that are not blank, each with the encoding of what is in memory |
| Persistence.EncodableMeaning | src/store/session.rs:385-394 | a save fails exactly when one of those rows cannot be encoded |
| Persistence.LoadedMeaning | src/store/session.rs:187-293 | a load reads exactly the safe paths with a row that decodes, and of several spellings the last |
| Journal.RecoverPendingOperations | src/sync/engine.rs:209-304 | recovery ends in `Recovered` of the database, and every state it leaves on the way is one that `MayLeave` allows |
| Journal.InterruptedRecoveryConverges | src/sync/engine.rs:209-304 | any number of interrupted recoveries and a complete one end where one complete recovery ends |
| Journal.RecoveryKeepsTrusted | src/sync/engine.rs:240-285 | recovery keeps the record and the conversion of a path exactly when its row cannot be read, is only planned, or is of an upload or a download past its side effect; folder ids stay |
| Journal.NothingToRecover | src/sync/engine.rs:286-291 | without any other row it only empties the journal |
| Journal.RecoveredIsClean | src/sync/engine.rs:286-304 | a complete recovery leaves no journal row and nothing to recover |
| CrashRuns.NoDecisionUsesADeletedRecord | src/sync/executor.rs:471-584 | in every run of interleaved operations, crashes, commits and interrupted recoveries, no cycle decides with the record of a delete that was applied |
| CrashRuns.SurvivingRecordWasNotDeleted | src/sync/engine.rs:252-275 | at every point a stored record without a purging journal row is not of an applied delete |
| CrashRuns.CompletedTransferSurvives | src/sync/engine.rs:241-264 | in every run the stored record of an upload or a download past its side effect is there again after any crashes, other operations and interrupted recoveries up to the next commit |
| Deletes.RunTrashRemote | src/sync/executor.rs:1412-1456 | write by write the remote delete is a run of the crash machine, also when the request fails after acting; it succeeds exactly when all rows can be written and the request acts and answers, and then the path is forgotten and its row is committed |
| Deletes.RunDeleteLocal | src/sync/executor.rs:491-584 | write by write the local delete is a run of the crash machine; it succeeds exactly when the file goes and the rows up to then can be written, and a delete that was tried and failed drops its journal row |
| Deletes.CrashAnywhereIsRecoverable | src/sync/executor.rs:1412-1456 | after a crash behind any write, every record of an applied delete stands beside a row that purges it |
| Tombstones.TombstoneTable.ClearResolved | src/sync/engine.rs:339-368 | exactly the tombstones of safe paths with a planned delete stay |
| Tombstones.TombstoneTable.RunCycle | src/sync/executor.rs:471-609 | after a cycle each path has the row that its plan, observation and delete imply, and the attempted deletes are the confirmed ones |
| Tombstones.AttemptedExactlyWhenConfirmed | src/sync/executor.rs:1693-1722 | over any cycles a delete is attempted exactly when observed after a streak with at least `required` observations |
| Tombstones.AttemptNeedsConsecutivePlans | src/sync/engine.rs:339-368 | an attempt comes only after `required` consecutive cycles that planned a delete of the path |
| Tombstones.OtherPlanResets | src/sync/engine.rs:339-368 | after a cycle that planned otherwise nothing is attempted |
| Tombstones.PersistentDeleteIsAttempted | src/sync/executor.rs:471-489 | `required + 1` observations in a row attempt the delete, and from a fresh start in exactly the last of them |
| Tombstones.ShippedThreshold | src/sync/executor.rs:1693-1722 | with the shipped threshold the cycle before an attempt planned a delete of the path |
| Naming.FindFree | src/drive/list.rs:201-208 | the numbered search terminates at the first free name, because only finitely many are taken |
| Listing.DedupeNameForFolder | src/drive/list.rs:195-209 | a free name is kept, a taken one gets the first free number |
| Listing.DedupeMeaning | src/drive/list.rs:195-209 | the number is the first free one from 2 on and stands before the extension |
| Listing.AssignMeaning | src/drive/list.rs:174-193 | each file in turn gets its sync name when no file before has it, else a numbered one |
| Listing.ChoosingOrder | src/drive/list.rs:66-172 | names are chosen by plain files and folders in order of name and id, then by Workspace files in that order, each once |
| Listing.LocalNamesInAssignmentOrder | src/drive/list.rs:161-193 | plain files and folders choose first, then Workspace exports, each avoiding the names before |
| Listing.AssignedNamesAreDistinct | src/drive/list.rs:161-193 | every file of a folder gets a name of its own |
| Listing.PlainNamesIgnoreExports | src/drive/list.rs:155-177 | Workspace files never change the name of a plain file or folder |
| DriveTree.NamesForgetTheOrder | src/drive/list.rs:66-67 | the names in a folder do not depend on the order in which Drive returned the files |
| DriveTree.ListAllFiles | src/drive/list.rs:23-91 | the walk over any finite tree terminates and lists exactly the located objects, each at its path |
| DriveTree.ListingForgetsTheOrder | src/drive/list.rs:23-91 | two trees with the same files in every folder, in any order, have the same listing |
| DriveTree.PathsAreDistinct | src/drive/list.rs:67-88 | different objects of the tree have different paths |
| DriveTree.IdsAreDistinct | src/drive/list.rs:28-84 | no folder is listed twice |
| RemoteView.StubStandsForTheObject | src/sync/engine.rs:540-565 | the stub of a record has the object's id, type, fingerprint and version vector |
| RemoteView.PlaceWithoutClobber | src/sync/engine.rs:617-654 | the search terminates and never gives a path that another object has |
| Placing.PlaceMeaning | src/sync/engine.rs:617-654 | a taken path gets the first free number from 2 on, in its own directory and before the extension |
| Placing.RecordedStaysOrFails | src/sync/engine.rs:573-600 | a change of a recorded object is applied at its path exactly when the object still has the path's last name and directory, else it is an error |
| Placing.RecordedWithoutFile | src/sync/engine.rs:573-600 | a change of a recorded object without metadata is applied at its path |
| Placing.UnrecordedMeaning | src/sync/engine.rs:602-615 | another object is ignored when removed, put below its first parent that gives a safe path, and tried later without one |
| Placing.RenameFailsBatch | src/sync/engine.rs:574-583 | a batch that renames a recorded object and says nothing else about it cannot be applied |
| Placing.MoveFailsBatch | src/sync/engine.rs:584-599 | nor can one that moves it, when the folders it is now in are not changed by the batch |
| Placing.RenamedFolderIsNotCaught | src/sync/engine.rs:491-525 | a folder has no record, so its rename is applied and the rows below its old path stay |
| RemoteView.ApplyChanges | src/sync/engine.rs:457-486 | the retry loop terminates and computes `Retry` |
| RemoteView.AppliedKeepsOthers | src/sync/engine.rs:491-525 | one change keeps the maps inverse and every other object in place exactly when it does not evict a stranger, and the id set changes by the object's own id only |
| RemoteView.RetryAccounts | src/sync/engine.rs:457-486 | over a batch with retries in which no applied change evicts a stranger, the final maps are inverse, objects without an applied change keep path and row, and the others are there as their last applied change says |
| RemoteView.KnownTrashEvictsNobody | src/sync/engine.rs:491-525 | a batch whose trashed objects are known evicts nobody in any pass |
| RemoteView.BatchKeepsInverse | src/sync/engine.rs:457-525 | from a view with distinct ids such a batch ends in inverse maps, the final ids are the initial plus the placed minus the removed, and every other object keeps path and row |
| ViewAgreement.IncrementalAgrees | src/sync/engine.rs:438-489 | for a batch that is the difference of two trees, in any order and with new folders nested to any depth, the view has exactly the files of the new tree with their ids and fingerprints, and its maps are inverse |
| ViewAgreement.PlainDifferenceIsApplied | src/sync/engine.rs:567-615 | such a batch is applied without falling back when removals carry no metadata |
| ViewAgreement.NothingIsLeftBehind | src/sync/engine.rs:455-486 | when a pass places nothing new, every object of the new tree has been placed |
| ViewAgreement.StepAgrees | src/sync/engine.rs:567-615 | one change, applied or ignored, keeps the agreement, and it is deferred exactly when its path cannot be resolved yet |
| ViewAgreement.UnplacedHasUnknownParent | src/sync/engine.rs:567-615 | a deferred new object has a new parent folder that is not known yet and lies above it |
| IncrementalListing.BuildIncrementalRemoteView | src/sync/engine.rs:438-489 | for any records and folders the view starts from the stubs and from maps that give each id one of its paths, and is what the retries give |
| IncrementalListing.IndexInvertsIffDistinct | src/sync/engine.rs:527-538 | the maps it starts from are inverse exactly when no two records and no two folders share an id |
| IncrementalListing.SessionStartsInStep | src/sync/engine.rs:527-538 | a session with a record for every file and the id of every folder starts a view in step with the tree |
| IncrementalListing.IncrementalEqualsListing | src/sync/engine.rs:375-428 | the incremental view and the full listing have the same files at the same paths with the same ids and fingerprints |
| IncrementalListing.CatalogIsSound | src/drive/list.rs:23-91 | the objects of a listed tree with plain names are placed under their parents at distinct safe paths |
| Upload.ContentRangeReadsBack | src/drive/upload.rs:328-333 | the header, read by the grammar of section 14.4 of RFC 9110, names the span and the size |
| Upload.RangeHeaderReadsBack | src/drive/upload.rs:225-233 | the next offset read from a `Range` header is what the server holds |
| Upload.UploadResumableBytes | src/drive/upload.rs:274-380 | from any stored offset, the upload succeeds exactly when the file is long enough, the offset is not ahead of the server and each answer brings progress up to the whole file, which includes every server that takes something each time; requests carry the chunks at the start and at the reported offsets, offsets grow, there are at most as many rounds as missing bytes, and reported offsets are never ahead exactly when the first bytes are taken or nothing is reported |
| Upload.SendChunk | src/drive/upload.rs:312-378 | one round is finished exactly when the server then holds the file, goes on exactly when it holds more than the offset or still nothing, and fails otherwise; a short file fails without a request |
| Upload.AnswerMeaning | src/drive/upload.rs:346-378 | any 2xx answer ends the upload, a 308 with an offset past the last one and inside the file goes on, everything else fails |
| Upload.ChunkMeaning | src/drive/upload.rs:309-342 | a request carries the rest of the file or 8 MiB of it, and its header says which |
| Folders.CollectParentFolders | src/drive/folders.rs:154-186 | the list holds exactly the folders above the paths, shallower first |
| Folders.FoldersOfPath | src/drive/folders.rs:154-178 | the folders of a safe path, whatever slashes surround it, are exactly the non-empty texts that it continues with a separator |
| Folders.CreationOrder | src/drive/folders.rs:179-185 | they are listed by number of segments, then by name |
| Folders.ParentsComeFirst | src/drive/folders.rs:154-186 | the list is closed under parents and each stands before its children |
| Folders.EnsureFolderHierarchy | src/drive/folders.rs:122-152 | one request for each missing folder, and success whenever that many are answered; the missing-parent error never happens, existing entries stay, every needed folder is there and each new one is registered under its own parent's id |
| Limiter.PaceAll | src/drive/client.rs:35-50 | any sequence of calls gets exactly `Grants` |
| Limiter.GrantsAreEarliest | src/drive/client.rs:35-50 | slots are not before their calls and keep the distance, and no schedule with both properties has any call earlier |
| Limiter.WindowIsBounded | src/drive/client.rs:35-50 | a closed window of length W holds at most W / interval + 1 slots |

## Left out

- HTTP, OAuth, retries, the daemon loop, the file watcher, the command line and text extraction: foreign code and user interface.
- Interleavings inside one upload between preflight, media write and properties write: `Protocol` takes the handling of one path as one step that may stop at any stage; the documentation accepts the race inside it, and no-loss is false there.
- Imperative form of the upload, download and conflict branches: they are steps on values in `Protocol` and `CrashRuns`, so the updates of the report, the progress bar and the semaphores are not captured. The delete branches are methods in `Deletes`.
- Deletes in the no-loss theorem: `Protocol` runs have edits, web edits and syncs; deletes are in `CrashRuns` and `Tombstones`.
- Conflict copies in runs: a copy is a kept content in `Protocol`; what a user's edit or removal of it does to the original is in `Copies`, one decision at a time.
- A lost record in incremental mode: `Protocol.ForgetRecord` leaves the object listed, as a full listing does; an incremental view is built from records, so there the path is decided as local only and a second Drive object is created.
- BuildIncrementalRemoteView: which of its paths a shared id gets depends on iteration order and is left open.
- Leases, open-lock files, file stability and trash expiry: they only postpone an upload or remove old trash.
- VerdictMeaning: needs uninterrupted syncs with current listings, clean device names, no trimming and no saturated counter; with a stale listing the remote vector can lose counts.
- SettledIffMirrored: takes a listing in which the record is about the listed object; the other case for deletes is `DeleteSettlesIffSameObject`.
- RecoverPendingOperations: keys of the journal and the tables are taken as normal, which is how they are all written (`SavedKeysAreNormal`); clearing the memory of a path cannot fail here, and in the code fails only on a poisoned lock.
- RunTrashRemote: the path is safe, as every path of a listing, a scan or a record is; the unsafe-path error of local deletes is not modelled.
- RunCycle: a tombstone that cannot be decoded, which ends the cycle with an error, is not modelled.
- ListAllFiles: names contain no separators, every object has one parent and the tree is finite; paging is one sequence per folder.
- IncrementalAgrees: no rename, move or reuse of a path (a rename or move of a recorded object fails the batch, see `RenameFailsBatch`), unique names, and nothing trashed that the session does not know inside the tree; when a change cannot be applied the engine lists the whole tree.
- A record whose object was reported removed is listed again by the next incremental cycle; eventual propagation of remote deletes in that mode is not claimed.
- UploadResumableBytes: the empty-file branch is not modelled, since callers use the loop only above a positive size; progress callbacks always succeed; the retry with a new session after an expired one is not modelled.
- Resuming after a failed upload: recovery drops the upload session of a started upload, so it is not claimed.
- EnsureFolderHierarchy: looking up a folder by a Drive query is a table of children by parent and name.
- PrepareTable: order of the rows inside a batch is arbitrary.
- Purging of stale upload sessions and parent lookup of the session: single filters that would only add easy members.
