# Verification of the supabash workspace

A Dafny model of how a workspace keeps its files: what is stored, what is staged, and what becomes of both when
writes fail, processes stop, or several workspaces share a store. Every statement below is proved for all inputs,
all runs, or all reachable states of the model.

- **Storage commits and recovery** (`Commits`, `Protocol`, `ProtocolRuns`, `Storage`, `Workspace`, `WorkspaceRuns`).
  The store is a visible tree and a set of history records, changed one write at a time; a write that fails may or may
  not have been applied, and an operation may be cut off after any write. The value-level protocol has the invariant
  and the theorems over runs; the classes `ScopedStorage` and `StorageWorkspace` carry the loops and the order of
  writes and are proved to follow it: a commit publishes exactly the staged tree or nothing, through any number of
  interrupted recoveries. What one call of a workspace does is stated as a relation between values; the methods are
  proved to be such steps, and the runs of several workspaces on one store are built from the same relation: no lost
  update, retries, and what is published as the fold of what was staged.
- **Change tracking** (`MemoryTree`, `Tracking`, `TrackingRuns`, `TrackedFs`). Deletions and upserts stay a correct
  delta from the last listing to the live tree through every operation; the class updates its maps and sets piecewise
  and is proved equal to the value-level step. When what is staged rebuilds to exactly the live tree is an
  if-and-only-if.
- **Retention and paging** (`Retention`, `Purge`, `Paging`, `HistoryRuns`). Any subset of a purge's removals leaves
  every retained revision readable and the order of the survivors unchanged; over runs of commits, recoveries and
  purges following cursors visits exactly the surviving ones of all commits ever made, once each and in order.
- **Patches** (`Text`, `PatchText`, `Patch`, `PatchMeaning`, `PatchRoundTrip`, `PatchAnchors`). The V4A parser with its
  cursor, its three-tier context search and its chunks; which sections a diff parses into, in terms of the lines of the
  file and the texts of its anchors; what a parsed diff does to a file; and round trips through printed diffs.
- **Patch batches** (`Executor`, `ExecutorTree`, `ExecutorRestore`, `ExecutorSteps`, `ExecutorPending`,
  `ExecutorMeaning`). Operations with compensating undos and one failing mutation that does nothing, makes only the
  parents, or completes; what finished operations make of the files, in either mode.
- **The Postgres workspace** (`Backend`, `BackendRuns`, `BackendTrees`). Redaction epochs, unknown outcomes, retries
  and restore, against a server that checks the restore fence, then the epoch, then replays a known transaction, then
  compares the head; and over which runs the snapshot stays the tracker's baseline.
- **Diffs, paths and mounts** (`Diff`, `DiffMeaning`, `Paths`, `Mounts`). A complete diff with a maximum matching of
  moves; the normal form of paths; translation through mounts.
- **The command visitor** (`Shell`, `Visitor`). Its visit of a parsed script ends although scripts define, redefine and
  call functions, a call leaves the caller's own variables alone, and no simple command escapes the list.

`dafny verify dfyconfig.toml` checks the whole project.

## Where the code does not keep a promise

Each of these is a lemma, with the exact condition under which the promise holds; for the last, one that suffices.

- A directory that only a removed file implied stays live, is not staged, and is gone after the next rebuild:
  `recordDeletion` removes its own path and nothing above it (`TrackingRuns.RebuildsLiveIff`,
  `TrackingRuns.DirectoryLeftBehind`, `Workspace.CommitKeepsTreeIff`).
- A commit whose own recovery had something to do takes the recovered listing as its baseline, so it is never in
  conflict and writes over what others published since it was opened (`WorkspaceRuns.CommitLosesIff`,
  `WorkspaceRuns.LatecomerLoses`).
- A retry of a Storage commit that published without saying so is refused as a different commit when no context is
  given, its correlation id being new each time, or when its first attempt had replaced the baseline
  (`WorkspaceRuns.RetryMatchesIff`, `WorkspaceRuns.UnchangedRetry`, `WorkspaceRuns.RefreshedPlanIff`,
  `WorkspaceRuns.RefreshedRetryDiffers`).
- A directory that a commit has uploaded carries the digest of the empty text, its manifest entry none, so every
  recovery with work to do uploads it again under a new etag, and whoever staged it meanwhile is refused
  (`Workspace.CommittedAsRecordedIff`, `Storage.ScopedStorage.RestoreVisibleTree`, `Workspace.ConflictIff`).
- A failed batch of uploads leaves the others of the batch in flight; one that lands after the next recovery changes
  what is stored without being published (`ProtocolRuns.LateUploadsIff`, `ProtocolRuns.LateUploadLeavesRest`).
- Restore stages nothing for a file whose mode alone differs: `sameStagedEntry` does not look at file modes
  (`TrackingRuns.RestoreFaithfulIff`, `TrackingRuns.RestoreMissesMode`).
- An end-of-file section can reach back over an earlier section, so a diff can parse and then fail as overlapping
  (`PatchMeaning.DisjointIff`, `PatchMeaning.UpdateAppliesIff`, `PatchRoundTrip.EofMayOverlap`).
- A carriage return at the end of a line does not survive a diff (`PatchRoundTrip.CreateRoundTripIff`).
- `update_file` with a `moveTo` naming its own path writes without a rollback (`ExecutorTree.OntoItselfRestoredIff`,
  `ExecutorRestore.BatchRestoredIff`).
- After a failed batch a file can stay in the pending set although it is what the baseline holds: writing back a file
  that is not pending makes it so, and writing it back again undoes that (`ExecutorPending.PendingAfterFailure`, for
  every batch, with two instances).
- A purge takes no lease and does not recover first: between a commit that was cut off and its recovery it removes the
  commit that was completed but not yet the head, or an intent whose manifest was written, and recovery then finds
  nothing to do (`HistoryRuns.PurgeHarmlessIff`, `HistoryRuns.PurgeStrands`).
- Undoing a creation that never happened reports an error when parents were missing, though nothing is left to undo
  (`ExecutorTree.AppliedRestorable`).
- A directory staged in place of a committed document does not remove the document from the committed tree, which the
  workspace then cannot rebuild (`BackendRuns.CommittedTreeIff`, `BackendTrees.NextWholeIff`,
  `BackendTrees.DirectoryTakesPlace`).
- `moveDescendant` loses the separator from the root into another directory (`Paths.MoveDescendantIff`).
- Under a mount that presents the source's device directory an ordinary path becomes the null device
  (`Mounts.RoundTripIff`, `Mounts.LandsOnNullIff`).
- The visit of a script is sure to end if no function name depends on variables; with such names a function can define
  and call ever new ones, none of which is active yet (`Visitor.CommandProgram`, `Visitor.EndlessVisit`). An exact
  condition is out of reach here: function names that grow with a variable serve as the addresses of an unbounded
  queue, and which scripts that work on such a queue end is a halting problem. That reduction is not proved.

## Model

| member | source | states |
|---|---|---|
| Protocol.StepKeepsInv | src/history/publish.ts:90-155 | every single write of the protocol, in any state that may issue it, keeps the invariant: one parent chain from nothing, head at its tip or the tip's parent, every completed manifest readable from stored bodies, at most one unresolved intent |
| Protocol.UnresolvedAfter | src/history/recover.ts:74-94 | how each write changes the set of unresolved intents |
| Protocol.PublishedAfter | src/history/recover.ts:96-116 | no write but the complete record changes what is published |
| Protocol.PublishedAfterComplete | src/history/publish.ts:127-135 | the complete record publishes exactly the manifest written before it |
| ProtocolRuns.RunKeepsInv | src/history/recover.ts:18-131 | the invariant holds after every run of allowed writes, wherever it stops |
| ProtocolRuns.RunExtends | src/history/recover.ts:202-220 | history is append-only over runs: completed records keep place, parent and manifest, and an entry once replaced or deleted never returns under its etag |
| ProtocolRuns.PublishedUntilComplete | src/history/recover.ts:96-116 | over a run without a complete record, what is published does not change |
| ProtocolRuns.CrashAtomicity | src/history/recover.ts:18-131 | at rest after any run: the visible tree is the one published before, or the manifest of the last transaction completed |
| ProtocolRuns.AtomicAcrossRecoveries | src/history/recover.ts:18-45 | a commit cut anywhere, then recoveries cut anywhere, then one at rest: exactly the staged tree if the complete record was written, else exactly the published one |
| ProtocolRuns.TipReadable | src/history/recover.ts:47-72 | what is published is the manifest of the tip, it is in the store, and so is every file body it names |
| ProtocolRuns.ChildIsNext | src/history/recover.ts:202-220 | the only record whose parent is a position of the chain is the next one, so descending from anywhere ends at the tip |
| ProtocolRuns.OneCompletePerKey | src/history/publish.ts:31-69 | over every run an idempotency key names at most one completed transaction |
| ProtocolRuns.SerialisedHistory | src/history/publish.ts:105-155 | over every serialised history the chain grows by exactly the completed transactions in order, and no key completes twice |
| ProtocolRuns.CommittedAmidSteady | src/core/workspace.ts:113-201 | a commit between recoveries is a commit |
| ProtocolRuns.NeverCommittedIsGood | src/history/publish.ts:90-103 | a store nobody committed to, with honest entries under the etags they were given, meets the invariant and publishes what it shows |
| ProtocolRuns.LateBeforeRecovery | src/core/workspace.ts:178-180 | uploads of a commit that has given up may land in any number and order before its recovery: the invariant and the unresolved intent stay |
| ProtocolRuns.LateUploadsIff | src/core/batches.ts:1-12 | once a recovery is at rest, the store stays on the published tree whatever lands late exactly when every outstanding upload is already there |
| ProtocolRuns.LateUploadLeavesRest | src/core/batches.ts:1-12 | the input: a rolled-back first commit whose one upload lands afterwards leaves a file nobody published |
| Storage.ScopedStorage.Write | src/history/publish.ts:90-155 | a write that fails may or may not have been applied and counts as a failure; nothing else happens to the store |
| Storage.ScopedStorage.LatestChild | src/history/recover.ts:197-212 | the child latest by time and then by transaction, exactly when there is one |
| Storage.ScopedStorage.NewestDescendant | src/history/recover.ts:202-220 | terminates and returns the tip of the chain from every position of it |
| Storage.ScopedStorage.RecoverIdempotency | src/history/recover.ts:177-195 | afterwards the key of the transaction has its receipt; nothing else changes |
| Storage.ScopedStorage.AdoptedComplete | src/history/recover.ts:47-72 | the complete record to adopt is the tip |
| Storage.ScopedStorage.RecoverPublishedHead | src/history/recover.ts:47-72 | when it finishes, head and receipt are those of the tip; cut off anywhere, what is published is unchanged |
| Storage.ScopedStorage.RestoreEntry | src/history/recover.ts:133-175 | an entry that differs is replaced by the target entry with its stored body |
| Storage.ScopedStorage.DeleteAll | src/history/recover.ts:118-131 | finished, exactly the given paths are gone; cut off, exactly some of them; it finishes exactly if no write fails |
| Storage.ScopedStorage.RestoreVisibleTree | src/history/recover.ts:118-131 | when it finishes, the visible tree is the target's, and an entry was left alone, etag and all, exactly if kind, mode, digest and link target are those the target records; cut off anywhere, such entries are still untouched, nothing outside old tree and target appears, and published state and chain are unchanged |
| Storage.ScopedStorage.RecoveryTarget | src/history/recover.ts:96-116 | the target is the published tree: the head's manifest, or the snapshot captured with the first intent |
| Storage.ScopedStorage.RecoverWorkspace | src/history/recover.ts:18-45 | a recovery finishes exactly if no write fails, and then leaves nothing unresolved and the visible tree equal to the published one; entries the published manifest records as they are keep their etags, and when it finishes, with something to do, only those do; cut off anywhere it can be run again |
| Storage.ScopedStorage.EnsureObject | src/history/snapshot.ts:57-80 | afterwards the body is stored under its own digest |
| Storage.ScopedStorage.RevisionEntriesFrom | src/history/snapshot.ts:24-38 | the manifest lists exactly the given entries with kind, mode, link target and the digest of file bodies and link targets, none for a directory, and every body it names is stored |
| Storage.StoredEntryMeans | src/history/snapshot.ts:40-55 | a manifest entry keeps kind, mode, body and link target of the entry it was made from |
| Storage.SameEntryMeans | src/history/recover.ts:170-175 | an entry recovery leaves alone is, for a user, the target entry |
| Storage.ScopedStorage.WriteIntent | src/history/publish.ts:90-103 | the intent becomes the one unresolved intent and carries the given revision, key and fingerprint; without a head it carries the visible tree |
| Storage.ScopedStorage.UploadAll | src/core/workspace.ts:178-180 | batch after batch: finished, exactly the given entries with new etags are on top; at a failure history is untouched and at most one batch of unacknowledged uploads is outstanding |
| Storage.ScopedStorage.UploadBatch | src/core/batches.ts:1-12 | a batch ends with all uploads acknowledged or at the first failure, the rest of the batch then being outstanding |
| Storage.ScopedStorage.ChangeVisible | src/core/workspace.ts:178-181 | finished, the visible tree is the overlay of the staged changes; cut off, nothing but visible entries has changed |
| Storage.UploadsThenDeletes | src/core/workspace.ts:178-181 | uploading first and deleting second gives the overlay, the two sets being disjoint |
| Storage.ScopedStorage.WriteManifestAndComplete | src/history/publish.ts:113-135 | with the complete record the staged tree is published, without it nothing changed |
| Storage.ScopedStorage.RecordReceipt | src/history/publish.ts:136-143 | afterwards a key has its receipt |
| Storage.ScopedStorage.WriteReceiptAndHead | src/history/publish.ts:136-153 | finished, head and receipt name the tip |
| Storage.ScopedStorage.FinalizePublish | src/history/publish.ts:105-155 | published exactly if the complete record exists; finished, the store is settled |
| Storage.ScopedStorage.Publish | src/core/workspace.ts:166-193 | cut off anywhere it publishes exactly the staged overlay, and then the complete record exists, or changes nothing published; without a failed write or a lost lease it publishes; uploads are outstanding only without a complete record |
| Tracking.UpsertsFaithful | src/core/tracked-inspection.ts:106-119 | placing nodes and recording them as upserts keeps deletions and upserts a correct delta |
| Tracking.DeletionsFaithful | src/core/tracked-inspection.ts:121-141 | removing nodes and recording them as deletions keeps the delta correct |
| Tracking.ReconcileFaithful | src/core/tracked-file-system.ts:336-342 | dropping a file written back to its baseline keeps the delta correct |
| Tracking.MkdirFaithful | src/core/tracked-file-system.ts:205-212 | a directory made, with all it implies, keeps the delta correct |
| Tracking.RmFaithful | src/core/tracked-file-system.ts:222-230 | a removal of a whole subtree keeps the delta correct |
| Tracking.CpFaithful | src/core/tracked-file-system.ts:232-241 | a recursive copy keeps the delta correct |
| Tracking.MvFaithful | src/core/tracked-file-system.ts:243-256 | a move of a whole subtree keeps the delta correct |
| TrackingRuns.StepFaithful | src/core/tracked-file-system.ts:171-301 | every operation, also a refused one, keeps the delta from baseline to live tree correct |
| TrackingRuns.RunFaithful | src/core/tracked-file-system.ts:171-301 | so does every sequence of operations |
| TrackingRuns.StagedIsLive | src/history/snapshot.ts:9-22 | upserts and deletions are disjoint; every path of baseline minus deletions plus upserts is live and agrees with it, and every live file and link is among them |
| TrackingRuns.RebuildsLiveIff | src/core/tracked-inspection.ts:106-141 | what is staged rebuilds to the live tree, modes of links aside, exactly when every live directory is staged, kept or above a path that is |
| TrackingRuns.DirectoryLeftBehind | src/core/tracked-inspection.ts:121-141 | the input: a file written below a new directory and removed again leaves the directory live, nothing staged, and no directory after a rebuild |
| TrackingRuns.RunPlain | src/core/tracked-inspection.ts:106-119 | over every run a directory with no entry of its own has the mode a rebuild gives it |
| TrackingRuns.PreparedMeans | src/core/tracked-inspection.ts:12-42 | the upload made of a live node describes that node |
| TrackingRuns.TreeFromWellFormed | src/core/tracked-restore.ts:9-26 | a rebuilt listing is a tree; paths it adds are directories |
| TrackingRuns.ResetFaithful | src/core/tracked-file-system.ts:61-72 | a freshly opened workspace tracks correctly |
| TrackingRuns.RestoreStagesTarget | src/core/tracked-restore.ts:28-62 | staging a target: the overlay has exactly its paths, each equal to it up to what the comparison looks at |
| TrackingRuns.RestoreFaithfulIff | src/core/tracked-restore.ts:48-62 | a staged restore is a correct delta exactly when no file changes its mode alone |
| TrackingRuns.RestoreMissesMode | src/core/tracked-restore.ts:48-62 | a target that differs in a file's mode and yet stages nothing |
| TrackingRuns.RefreshFaithfulIff | src/core/tracked-file-system.ts:143-153 | after a recovery the refreshed baseline is a correct base exactly when the new listing agrees with the live tree on every path without a staged change |
| TrackingRuns.DeltaHolds | src/core/tracked-file-system.ts:74-87 | what a commit relies on, disjoint uploads and deletions over live and baseline paths, survives operations, restore and refresh |
| TrackingRuns.SoundHolds | src/core/tracked-file-system.ts:143-153 | tree, kind index and delta stay sound through a new listing, a reset and a restore |
| TrackedFs.StepSound | src/core/tracked-file-system.ts:171-301 | so they do through every operation, also over a baseline a recovery has replaced |
| TrackedFs.TrackedFileSystem.constructor | src/core/tracked-file-system.ts:47-72 | opens with the delta empty and the tree rebuilt from the listing |
| TrackedFs.TrackedFileSystem.TrackUpsert | src/core/tracked-file-system.ts:324-326 | records the path and its implied directories |
| TrackedFs.TrackedFileSystem.TrackDeletion | src/core/tracked-file-system.ts:328-330 | records the baseline entry, if any; moves that ended there are dropped |
| TrackedFs.TrackedFileSystem.TrackMove | src/core/tracked-file-system.ts:332-334 | an earlier move that ended at the source now ends at the destination, or is dropped if that is where it began; otherwise exactly a move of a baseline entry to another path is recorded |
| TrackedFs.TrackedFileSystem.ReconcileFile | src/core/tracked-file-system.ts:336-342 | drops exactly the change of a file that is what the baseline holds |
| TrackedFs.TrackedFileSystem.Write | src/core/tracked-file-system.ts:171-180 | the tracked state is the specified step; moves stay between baseline and live paths |
| TrackedFs.TrackedFileSystem.Append | src/core/tracked-file-system.ts:182-191 | the tracked state is the specified step |
| TrackedFs.TrackedFileSystem.Mkdir | src/core/tracked-file-system.ts:205-212 | the tracked state is the specified step, all directories made being recorded |
| TrackedFs.TrackedFileSystem.Rm | src/core/tracked-file-system.ts:222-230 | the tracked state is the specified step, all paths below being recorded |
| TrackedFs.TrackedFileSystem.Cp | src/core/tracked-file-system.ts:232-241 | the tracked state is the specified step |
| TrackedFs.TrackedFileSystem.Mv | src/core/tracked-file-system.ts:243-256 | the tracked state is the specified step; if no recorded move ended below the source, exactly the baseline entries among the moved ones are added, each from where it was to where it goes; an earlier move of one is continued, or dropped if it comes back to its start; moves to other places stay |
| TrackedFs.TrackedFileSystem.Chmod | src/core/tracked-file-system.ts:266-271 | the tracked state is the specified step |
| TrackedFs.TrackedFileSystem.Symlink | src/core/tracked-file-system.ts:273-278 | the tracked state is the specified step |
| TrackedFs.TrackedFileSystem.FinishCommit | src/core/tracked-file-system.ts:97-99 | nothing pending over the new listing, or nothing changed when it cannot be rebuilt |
| TrackedFs.TrackedFileSystem.DiscardChanges | src/core/tracked-file-system.ts:105-108 | back to the baseline |
| TrackedFs.TrackedFileSystem.RefreshBaseline | src/core/tracked-file-system.ts:143-153 | the new listing is the baseline; deletions of vanished paths are dropped |
| TrackedFs.TrackedFileSystem.StageRemoteTree | src/core/tracked-file-system.ts:74-87 | the live tree is the target and the pending sets are its difference from the baseline |
| TrackedFs.TrackedFileSystem.HashForRemote | src/core/tracked-inspection.ts:59-74 | the memoised digest is always the digest of the baseline entry |
| TrackedFs.RebuildLiveTree | src/core/tracked-restore.ts:9-26 | entries rebuilt one by one, in any order, give the tree of the whole listing and its kind index |
| TrackedFs.PendingAgainstBaseline | src/core/tracked-restore.ts:28-46 | deletions are the baseline paths missing from the target; upserts are the target paths that are new or differ |
| Workspace.StorageWorkspace.FindConflict | src/core/workspace.ts:300-322 | reports a path exactly if some staged path is in conflict, and then one that is: stored, not what is to be uploaded, and not the version of the baseline, or gone from under an upload |
| Workspace.StorageWorkspace.FindReceipt | src/history/publish.ts:31-88 | no answer exactly if neither this workspace's last attempt nor the key has a completed commit; the last attempt answers if its fingerprint is the same or a legacy one, the commit that carries the key if its fingerprint is the same, and otherwise the commit is refused |
| Workspace.StorageWorkspace.FinishPublishedCommit | src/core/workspace.ts:257-261 | what is stored becomes the baseline with nothing pending and nothing left over, or only the transaction to retry is kept |
| Workspace.StorageWorkspace.Commit | src/core/workspace.ts:113-201 | the workspace is fit for the next call however it ends; published exactly the staged tree or nothing; entries of paths it does not stage keep their etags; no conflicting path overwritten unless it had to recover; a retry answered, refused or new as history says; a commit that changed visible files and did not finish is remembered for discard and retry; failure only for a failed write, a lost lease, an unresolved move or an unbuildable listing; and when the live tree stays as it was |
| Workspace.StorageWorkspace.Discard | src/core/workspace.ts:207-218 | nothing pending and fit for the next call; after a partial commit the baseline is what recovery leaves; if it fails, nothing about the workspace has changed |
| Workspace.StorageWorkspace.Restore | src/history/restore.ts:12-56 | stages the recorded revision exactly if there is a head, the manifest and every body, and no commit under way; the next commit then names the revision restored, and no move is left over |
| Workspace.HistoricalMeans | src/history/restore.ts:29-56 | the staged entries are those of the revision's tree |
| Workspace.OpenWorkspace | src/core/workspace.ts:61-75 | opens on exactly the published tree with nothing unresolved; entries the published manifest records as they are keep their etags |
| Workspace.SameVersionIsSameEntry | src/core/workspace-changes.ts:113-123 | against an earlier listing of the same store, equal versions mean exactly equal entries |
| Workspace.PublishesLiveTree | src/core/workspace.ts:166-193 | the tree a commit publishes has exactly the live files and links |
| Workspace.NothingLost | src/core/workspace.ts:300-322 | without a conflict every staged path is absent, unchanged since the listing, or already what is to be uploaded |
| Workspace.ConflictIsReal | src/core/workspace.ts:300-322 | a path refused as a conflict holds neither the listed entry nor the upload, or was removed from under it |
| Workspace.ConflictIff | src/core/workspace.ts:300-322 | a staged deletion is in conflict exactly if the entry is there and not the listed one; a staged upload exactly if the stored entry is not that upload and was made, changed or removed since the listing |
| Workspace.CommittedAsRecordedIff | src/history/snapshot.ts:57-66 | once committed, a staged entry is stored as the manifest records it, and recoveries leave it alone, exactly if it is no directory |
| Commits.ResolvedNamesSource | src/core/workspace-changes.ts:135-144 | the context of a commit is the given one, or a new one, and names the revision restored |
| Workspace.ReceiptIffComplete | src/history/recover.ts:177-195 | once the head is settled a key has a receipt exactly if a completed commit carries it, and it names that one commit |
| Workspace.CommitKeepsTreeIff | src/core/workspace.ts:166-193 | nobody else having published, a commit leaves the live tree alone exactly when all its directories are covered by what is staged |
| Workspace.ValidLater | src/core/workspace.ts:113-201 | a workspace that does nothing stays fit for its next call whatever others write |
| Workspace.ValidAfterEdit | src/core/tracked-file-system.ts:171-301 | so does one that works on its files |
| WorkspaceRuns.RunKeeps | src/core/workspace.ts:61-245 | over every run of opens, edits, restores, commits and discards of several workspaces, every workspace stays fit for its next call and history only grows |
| WorkspaceRuns.NoLostUpdate | src/core/workspace.ts:300-322 | over every such run a commit whose own recovery had nothing to do overwrites or deletes only paths that are absent, held the listed entry at every moment since the listing, or already hold its content |
| WorkspaceRuns.CommitLosesIff | src/core/workspace.ts:128-131 | a completed commit loses exactly the published content it stages over without having listed it, and only if it had to recover the store first |
| WorkspaceRuns.RolledBackConflictsIff | src/history/recover.ts:118-131 | after a rolled-back commit and a recovery, a path it did not stage, whose entry is as the published manifest records it, has the entry it had, and is in conflict for another workspace exactly if it was before |
| WorkspaceRuns.RolledBackIsNoConflict | src/history/recover.ts:118-131 | over runs: a workspace in no conflict before somebody else's commit failed is refused none after the next open has rolled that back |
| WorkspaceRuns.FailedThenDiscarded | src/core/workspace.ts:195-218 | a commit begun on a store at rest that fails anywhere and is then discarded leaves the visible tree as the staged one if its complete record was written, and as what was published before otherwise |
| WorkspaceRuns.LatecomerLoses | src/core/workspace.ts:128-131 | the input: such a commit finds no conflict, publishes, and the text it never saw is gone |
| WorkspaceRuns.RunPublishes | src/history/publish.ts:105-155 | over every run the chain grows by exactly the completed commits, and what is published is their staged changes folded in order |
| WorkspaceRuns.KeyCompletesOnce | src/history/publish.ts:31-69 | over every run no idempotency key completes twice |
| WorkspaceRuns.RetriesPublishOnce | src/core/workspace.ts:132-144 | once an attempt has published, no later attempt of the workspace does, whatever it edits and others do: it is answered with that transaction or refused |
| WorkspaceRuns.RetryMatchesIff | src/history/fingerprint.ts:7-19 | it is answered exactly if it plans the same changes over its present baseline in the same context |
| WorkspaceRuns.KeyMatchesIff | src/history/publish.ts:31-69 | over runs of several workspaces: a commit whose key a completed commit of any of them carries writes nothing; it is answered with that commit exactly if both plan the same changes in the same context, and otherwise refused with everything staged in place |
| WorkspaceRuns.RefusedKeepsStaged | src/core/workspace.ts:194-200 | a commit that is not answered keeps the live tree, the upserts, the moves, the restore source, and every deletion of a path still there |
| WorkspaceRuns.PlanMoves | src/core/workspace-changes.ts:203-230 | the fingerprint holds one relocation for each recorded move, with kind, digest and size of what is staged at its destination, or else listed there |
| WorkspaceRuns.PlanRemovals | src/core/workspace-changes.ts:166-176 | one removal for each deletion no move accounts for |
| WorkspaceRuns.PlanPlacements | src/core/workspace-changes.ts:178-201 | one placement for each upload no move accounts for, with the entry it replaces and digest and size of the new one |
| WorkspaceRuns.SamePlanSameMoves | src/core/workspace-changes.ts:36-64 | equal plans record the same moves and move the same texts and link targets |
| WorkspaceRuns.EditedMoveDiffers | src/core/workspace-changes.ts:203-230 | a retry that edited the text of a moved file plans something else |
| WorkspaceRuns.UnchangedRetry | src/core/workspace-changes.ts:135-144 | with nothing staged in between, a retry with the same context is answered, and one without a context is refused, its correlation id being new |
| WorkspaceRuns.RefreshedPlanIff | src/core/workspace-changes.ts:36-64 | over a baseline that a recovery has replaced the plan is the same exactly if every entry it replaces is described the same |
| WorkspaceRuns.RefreshedRetryDiffers | src/core/workspace-changes.ts:178-201 | the input: the entry under a staged write was restored, so its etag and the plan differ |
| WorkspaceRuns.CommitBeside | src/core/workspace.ts:113-201 | a commit of one workspace leaves another one as it was and fit for its next call |
| WorkspaceRuns.WriteAndStayValid | src/core/workspace.ts:113-201 | work on the files of a workspace between commits leaves the store alone and the workspace fit for its next commit |
| Retention.WalkRetained | src/history/ancestry.ts:28-55 | terminates on any store contents; returns the retained revisions of the parent walk in order, or the cycle error exactly when the walk meets a revision again |
| Retention.TrailPreserved | src/history/ancestry.ts:17-26 | ancestry records written before a removal keep the parent walk |
| Retention.ChainPreserved | src/history/ancestry.ts:28-55 | after a removal the walk from head returns the survivors in their original order |
| Purge.RetainedStayReadable | src/history/purge.ts:37-76 | for any subset of the removals carried out, every retained revision still has all its bodies |
| Purge.PinnedRetained | src/history/purge.ts:120-136 | head, checkpoints, everything from the head down to the retention floor and, without a cutoff, the newest revisions of the chain are retained |
| Purge.GoneIsByPlace | src/history/purge.ts:17-47 | of the chain from the head exactly those go that are neither head nor checkpoint nor at or above the floor, and that come after the newest ones or are older than the cutoff; off the chain all but head and checkpoints |
| Purge.PurgeKeysByKind | src/history/purge.ts:48-72 | a body is removed exactly if no retained manifest names it; manifest, complete record, intent and receipt exactly with their revision; intent and abort record of a transaction exactly if it was aborted before the cutoff |
| Purge.RevisionOrderKept | src/history/purge.ts:17-78 | for any subset of removals the surviving revisions keep their parent order across gaps |
| Purge.CommitOrderKept | src/history/purge.ts:17-78 | so do the surviving complete records |
| Purge.GoodAgain | src/history/purge.ts:17-78 | the history left is one that can be purged again |
| Purge.GroundedAgain | src/history/purge.ts:17-78 | after a purge the published trail is still walked to its end, and a revision on it that kept its manifest kept its complete record or has preserved ancestry |
| Purge.PinDownTo | src/history/purge.ts:21-34 | pins exactly the chain from head down to the floor |
| Purge.HistoryStore.PreserveAncestry | src/history/ancestry.ts:17-26 | every revision to be removed leaves its parent link first, or the purge stops |
| Purge.HistoryStore.TransactionKeys | src/history/purge.ts:54-69 | exactly the records of the removed revisions |
| Purge.HistoryStore.PurgeHistory | src/history/purge.ts:11-78 | which revisions go, by their place on the chain, and with them exactly their keys; refused for a floor off the chain; cut off anywhere it has removed a subset of those keys, links first; a dry run changes nothing |
| Paging.ViewIsGood | src/history/query.ts:42-56 | every store a protocol run reaches meets what purge and paging assume |
| Paging.TrailIsLog | src/history/ancestry.ts:28-55 | without gaps the parent walk from the tip is the commit log backwards |
| Paging.CausalListIsLog | src/history/ancestry.ts:28-55 | the walk over complete records of a settled store yields the revisions of the commit log, newest first |
| Paging.CausalDistinct | src/history/query.ts:42-56 | whatever the store holds, several records of one revision included, and in whatever order it lists them, the causal list names no commit twice |
| Paging.CausalRecords | src/history/query.ts:42-56 | the map by revision, in which a later record replaces an earlier one, and the walk turned round give the causal list of any store |
| Paging.AnyOrder | src/history/ancestry.ts:33-33 | with one record per revision the order of listing decides nothing |
| Paging.CausalIsLog | src/history/query.ts:42-56 | the causal list of a settled store that was never purged is its commit log, oldest first |
| Paging.CausalAfterPurge | src/history/query.ts:42-56 | after a purge, wherever it stopped, the causal list is the surviving commits in their old order |
| Paging.PurgedLog | src/history/query.ts:42-56 | after any number of purges it is exactly the surviving commits of the log in order |
| Paging.ReadHistoryPage | src/history/query.ts:26-77 | a cursor naming a commit is answered with the commits after it, one naming none with the oldest or an error, as asked; a page is a stretch of the causal list, as long as the limit if more follow, which is exactly when it carries a next cursor, to its last record |
| Paging.FollowPages | src/history/query.ts:26-40 | following the cursors with any limits terminates and visits every commit of the causal list exactly once in order, or meets the cycle error |
| HistoryRuns.CommitAdvances | src/history/publish.ts:105-155 | a commit the protocol brings to rest, through any recoveries, adds one record whose parent is the head and which becomes the head; no manifest or record of another commit changes |
| HistoryRuns.RecoveryRests | src/history/recover.ts:18-45 | a recovery, or a commit rolled back, leaves records of commits and head as they were |
| HistoryRuns.RunDescends | src/history/ancestry.ts:13-26 | over every run of such commits, recoveries and purges, each purge possibly cut short, every revision ever committed keeps its parent, by its record or by preserved ancestry |
| HistoryRuns.RunLists | src/history/query.ts:42-56 | over every such run, and in whatever order records are listed, the causal list is exactly the surviving ones of all commits ever made, in the order in which they were made |
| HistoryRuns.CutCommitAdopted | src/history/recover.ts:197-220 | after any purges: of a commit cut off before its head, the record is the only child of the head and has none, so descending adopts it |
| HistoryRuns.PurgeHarmlessIff | src/history/purge.ts:35-46 | a purge keeps what recovery needs, the last completed manifest and the unresolved intents, exactly if the head is settled and no unresolved intent has written its manifest |
| HistoryRuns.PurgeStrands | src/history/recover.ts:47-72 | a whole purge of a store whose head is not settled: the completed commit has no record left, the head is the one before it, and no record is left to adopt |
| PatchText.SplitJoin | src/patch/v4a-context.ts:80-82 | lines joined with newlines split into the same lines |
| PatchText.NormalizeKeeps | src/patch/v4a-types.ts:33-37 | lines a diff can carry survive normalisation |
| PatchText.NormalizeDropsFinalNewline | src/patch/v4a-types.ts:33-37 | also when the diff ends in a newline |
| PatchText.NormalizeReturns | src/patch/v4a-types.ts:33-37 | a line break takes up to two carriage returns with it, the end of the diff one; any others stay |
| PatchText.TrimIs | src/patch/v4a-context.ts:35-46 | trimming cuts blanks off the two ends, and all of them |
| Patch.SectionState.ConsumeSectionLine | src/patch/v4a-section.ts:68-86 | one line of a section is consumed as specified, or refused without a prefix |
| Patch.SectionState.FlushChunk | src/patch/v4a-section.ts:88-99 | pending deletions and insertions become one chunk at the right offset |
| Patch.ReadSection | src/patch/v4a-section.ts:20-66 | reads exactly the lines up to the next boundary; context and chunks are those of their edits; errors as specified |
| Patch.ParserState.ReadAnchors | src/patch/v4a-parse.ts:87-113 | reads all anchor lines, counting blank ones without keeping them |
| Patch.ParserState.ReadStr | src/patch/v4a-types.ts:47-54 | advances exactly over a line with the prefix |
| Patch.Search | src/patch/v4a-context.ts:112-138 | the first place from the start where the target matches, or no place matches |
| Patch.Scan | src/patch/v4a-context.ts:112-138 | the search loop finds that place |
| Patch.SearchContextCore | src/patch/v4a-context.ts:112-138 | exact before trailing blanks before all blanks |
| Patch.SearchContext | src/patch/v4a-context.ts:62-78 | with an end marker the last lines are tried first |
| Patch.AdvanceCursorToAnchor | src/patch/v4a-context.ts:10-60 | one anchor as specified; `PatchAnchors.AnchorMoves` says where it leads |
| Patch.ParseUpdateDiff | src/patch/v4a-parse.ts:36-85 | the chunks are those of the placed sections, and it fails exactly when placing fails |
| Patch.ApplyChunks | src/patch/v4a-context.ts:80-110 | fails exactly on a chunk out of range or overlapping; otherwise emits kept lines and insertions in order |
| Patch.ParseCreateDiff | src/patch/v4a-parse.ts:20-34 | the text of all plus lines, or the error on the first other line |
| Patch.ApplyDiff | src/patch/apply-diff.ts:26-33 | parsing and applying composed; `PatchAnchors.ParsesIff` says what parses, `PatchMeaning.UpdateMeaning` and `PatchMeaning.UpdateAppliesIff` what it does |
| PatchMeaning.GatherAmounts | src/patch/v4a-section.ts:68-99 | whatever edits a section has, its chunks and pending lines amount to the window rewritten by them |
| PatchMeaning.DisjointWindowsAreRewritten | src/patch/v4a-context.ts:80-110 | over disjoint windows the chunks never leave the file or overlap, and rewrite exactly the windows |
| PatchMeaning.DisjointIff | src/patch/v4a-parse.ts:36-85 | the windows of a parsed diff are disjoint exactly when every end-of-file section has room after the section before it |
| PatchMeaning.ChunksApplyIff | src/patch/v4a-context.ts:80-110 | any chunks apply exactly if none starts past the end or before the end of the one before it, and then each is cut out and replaced |
| PatchMeaning.UpdateAppliesIff | src/patch/apply-diff.ts:26-33 | a diff that parses applies exactly if no chunk starts before the chunk before it ends, also where windows overlap |
| PatchMeaning.UpdateMeaning | src/patch/apply-diff.ts:26-33 | a diff that parses and whose end-of-file sections fit applies, and the result is the file with each window's kept lines kept, deleted lines gone and added lines in |
| PatchRoundTrip.PrintedSection | src/patch/v4a-section.ts:20-66 | a printed script is read back as one section with exactly its edits |
| PatchRoundTrip.RoundTrip | src/patch/apply-diff.ts:26-33 | a script covering all old lines, printed and applied to the old text, gives exactly the new text |
| PatchRoundTrip.AdditionsGoOnTop | src/patch/v4a-context.ts:112-119 | a script of additions alone goes above whatever the file holds |
| PatchRoundTrip.CreateRoundTripIff | src/patch/v4a-parse.ts:20-34 | a text printed as a creation diff comes back exactly when none of its lines ends in a carriage return |
| PatchRoundTrip.WindowMatches | src/patch/v4a-context.ts:112-153 | a found window matches its context line by line up to blanks; an exact occurrence is preferred and the first one taken |
| PatchRoundTrip.EofMayOverlap | src/patch/v4a-context.ts:62-78 | a concrete diff that parses and yet overlaps, through an end-of-file section |
| PatchAnchors.AnchorMoves | src/patch/v4a-context.ts:10-60 | a first anchor leaves the cursor where it is if its line lies before it, every other goes just past its first line from the cursor on, an exact line counting before one that differs in blanks; a required one is missing exactly if it is on no line it may be on |
| PatchAnchors.AnchorsLead | src/patch/v4a-parse.ts:51-61 | all anchors of a section, one after the other, lead to where its search starts, or a required one is missing |
| PatchAnchors.FoundIff | src/patch/v4a-context.ts:62-78 | a context is found at its first match from the cursor on, exactly, else but for trailing blanks, else but for all blanks; marked as the end of the file, among the last lines if it matches there |
| PatchAnchors.ParsesIff | src/patch/v4a-parse.ts:36-85 | a diff parses into exactly the sections that sit in turn, each where its own anchors lead from the end of the one before, up to its last line, and is refused when none do |
| PatchAnchors.MissingAnchorRefuses | src/patch/v4a-parse.ts:51-61 | with two or more anchor lines, an anchor that is nowhere refuses the diff |
| PatchAnchors.AnchoredRoundTrip | src/patch/apply-diff.ts:26-33 | a printed diff with anchors rewrites the first exact match of its old lines after the line the last anchor names, and nothing else |
| Executor.PatchTarget.ListMissingParents | src/patch/undo.ts:55-63 | the missing parents from the top down |
| Executor.PatchTarget.RemoveParents | src/patch/undo.ts:13-18 | removes empty parents deepest first; a missing one is an error or skipped |
| Executor.PatchTarget.RunUndo | src/patch/undo.ts:7-53 | each undo runs as specified to its end or first error |
| Executor.PatchTarget.RunUndos | src/patch/undo.ts:65-77 | all undos run, the latest first, whatever fails; success only if none failed |
| Executor.PatchTarget.RollbackMutation | src/patch/executor.ts:207-219 | a failed mutation runs its own undo and reports whether it finished |
| Executor.PatchTarget.CreateFile | src/patch/executor.ts:85-99 | as specified, with its undo or its rollback |
| Executor.PatchTarget.UpdateFile | src/patch/executor.ts:101-142 | as specified; a move onto the own path has no rollback |
| Executor.PatchTarget.WriteAndMove | src/patch/executor.ts:129-141 | write, make the deepest missing parent, move; any failure is rolled back |
| Executor.PatchTarget.DeleteFile | src/patch/executor.ts:144-154 | as specified, with its undo or its rollback |
| Executor.PatchTarget.ApplyPatchOperations | src/patch/executor.ts:32-73 | the batch as specified: stops at the first failure, undoes all in all-or-nothing mode, keeps earlier work in ordered mode |
| ExecutorMeaning.OperationMeans | src/patch/executor.ts:75-154 | a finished operation has created, changed, moved or deleted exactly its file, with the text the diff gives and the parents it needs; with nothing failing it finishes exactly if that can be done |
| ExecutorMeaning.CompletedMeans | src/patch/executor.ts:32-52 | a completed batch has done every operation in turn; with nothing failing it is completed exactly if all of them can be done and none is too large |
| ExecutorMeaning.OrderedLeaves | src/patch/executor.ts:53-61 | an aborted batch in ordered mode leaves the tree of its finished operations; the one that stopped it changed nothing if it is too large, and otherwise, file modes aside, nothing but the text of an update struck after its write onto its own path |
| ExecutorMeaning.Utf8Is | src/patch/executor.ts:192-205 | the size of a diff is what its characters take in UTF-8 |
| ExecutorTree.MissingShape | src/patch/undo.ts:55-63 | the missing parents are the last of the proper prefixes |
| ExecutorTree.CleansUp | src/patch/undo.ts:13-18 | removing the created parents takes exactly the new directories away |
| ExecutorTree.UndoneRestores | src/patch/undo.ts:7-53 | an undo leads back to the tree before its operation from any state that differs only in what it rewrites, removes and cleans up |
| ExecutorTree.AppliedRestorable | src/patch/executor.ts:75-154 | a finished operation hands over an undo that leads back, a failed one has gone back itself, whatever its failing mutation left; its rollback reports an error exactly when a creation stalled with parents missing |
| ExecutorTree.AllUndoneRestores | src/patch/undo.ts:65-77 | all undos together lead back to the start |
| ExecutorTree.AllOrNothingRestores | src/patch/executor.ts:32-73 | a failed all-or-nothing batch gives back the tree, up to file modes, for any operations, any failure and anything the failing mutation left behind |
| ExecutorTree.OntoItselfRestoredIff | src/patch/executor.ts:120-123 | an update moved onto its own path and struck after its write is restored exactly when the diff changes nothing |
| ExecutorRestore.BatchRestoredIff | src/patch/executor.ts:32-154 | a failed all-or-nothing batch, whatever its operations and wherever it is struck, gives back the tree exactly unless an update onto its own path was struck after changing a text no earlier operation has an undo for |
| ExecutorRestore.BatchLeaves | src/patch/executor.ts:48-71 | what every failed all-or-nothing batch gives back, file modes aside: the tree it started from, or that with the text of a struck update onto its own path |
| ExecutorSteps.AppliedIs | src/patch/executor.ts:75-154 | every outcome of an operation, also of a failed one, is some of its tracked steps and its undo run from there |
| ExecutorPending.UndoneTame | src/patch/undo.ts:7-53 | an undo that runs through takes redundant uploads off the paths it rewrites, unless it writes back a file held to be unchanged |
| ExecutorPending.FailedTame | src/patch/executor.ts:207-219 | what a failing operation makes of the redundant uploads, exactly: written once, an unchanged file becomes one and a changed one is settled; changed before the rollback, it is settled; otherwise nothing |
| ExecutorPending.AllUndoneExcess | src/patch/undo.ts:65-77 | all undos run, for one file: written back while unchanged it becomes a redundant upload and the next time ceases to be one; the undo of a real change settles it and the count starts there |
| ExecutorPending.NothingNewAfterFailure | src/patch/executor.ts:48-71 | after any failed batch on a clean workspace: tracked correctly, nothing pending but uploads of files that are what the baseline holds, and the text, if any, that a struck update onto its own path left |
| ExecutorPending.PendingAfterFailure | src/patch/executor.ts:32-73 | for every failed batch on a clean workspace, exactly which files stay pending: one the failing operation wrote once while nothing had changed it; one changed or removed after an odd number of finished updates that kept its text; one last written by a struck update onto its own path after an even number |
| ExecutorPending.StruckDeletionStaysPending | src/patch/undo.ts:49-53 | an instance: on any clean workspace a deletion struck before it took effect leaves its file pending |
| ExecutorPending.UnchangedThenChangedStaysPending | src/core/tracked-file-system.ts:171-180 | an instance without any mutation struck: an update that keeps the text, one that changes it, then a refused operation, and the file stays pending |
| Backend.BuildCommittedTree | src/backend/committed-tree.ts:7-34 | previous documents without the deleted and moved, the prepared on top |
| Backend.BackendWorkspace.constructor | src/backend/workspace.ts:65-84 | opens on the server's head and epoch |
| Backend.BackendWorkspace.Commit | src/backend/workspace.ts:139-190 | workspace and server afterwards as specified for every delivery, and what the caller is told: a receipt names the record of what was sent, just added or already there; a refusal added nothing; the outcome is unknown exactly if something was sent and no reply came, and then the attempt is kept; whoever gets no receipt keeps what is staged |
| Backend.BackendWorkspace.Discard | src/backend/workspace.ts:196-200 | staged changes, attempt and restore source are dropped, or nothing changes while a commit is under way or the baseline cannot be rebuilt |
| Backend.BackendWorkspace.Redact | src/backend/workspace.ts:223-250 | succeeds exactly if applied, answered and reloaded; the epoch moves on exactly if the redaction was applied; after one that was or may have been, nothing is staged, and without a reload nothing may be committed |
| Backend.BackendWorkspace.ClearSnapshot | src/backend/workspace.ts:252-258 | nothing cached survives |
| Backend.BackendWorkspace.Restore | src/backend/workspace.ts:286-299 | succeeds exactly for a revision behind no redaction whose tree can be rebuilt, and then the target is staged and remembered as source |
| BackendRuns.AcceptFacts | src/backend/contracts.ts:66-88 | the server appends at most one revision per transaction, and only under its current epoch and head |
| BackendRuns.ReplyIff | src/backend/contracts.ts:66-88 | when each reply is given: behind the fence, under an old epoch, for a known transaction with the same or another input, under another head, or none of these |
| BackendRuns.SentIs | src/backend/workspace.ts:139-176 | what is sent: the staged deletions, moves and texts, revision and epoch of the snapshot, the restore source, under the transaction of a kept attempt with the same fingerprint or else a new one; and when nothing is |
| BackendRuns.NextSound | src/backend/workspace.ts:139-264 | every event keeps a workspace that may commit to changes staged since the redaction its snapshot knows of |
| BackendRuns.RedactionSafety | src/backend/workspace.ts:260-264 | over all runs of several workspaces, everything in an accepted commit was staged under the current redaction epoch |
| BackendRuns.InvalidatedIsSilent | src/backend/workspace.ts:252-264 | after an uncertain or half-finished redaction no commit reaches the server until one is applied, answered and reloaded |
| BackendRuns.RetrySendsTheSame | src/backend/commit-attempt.ts:9-16 | a retry with the same or no context sends the same transaction and fingerprint |
| BackendRuns.RetriesAddOneAtMost | src/backend/workspace.ts:139-190 | retries that continue a pending attempt add at most one revision, and none once the server knows the transaction |
| BackendRuns.CommitAndRetriesAddOneAtMost | src/backend/workspace.ts:139-190 | a commit and all its retries with the same or no context together add at most one revision, whatever is lost and whatever else is served |
| BackendRuns.CommittedTreeIff | src/backend/committed-tree.ts:7-34 | the committed tree is the live files exactly when no staged directory took the place of a document that was not moved away |
| BackendRuns.RestoreCommitsTarget | src/backend/workspace.ts:286-299 | the commit after a restore builds exactly the target's paths and texts |
| BackendTrees.NextTreeConsistentIff | src/backend/committed-tree.ts:7-34 | the committed tree can be rebuilt exactly when no staged directory took the place of a document |
| BackendTrees.NextWholeIff | src/backend/workspace.ts:139-190 | every event leaves the tracker correct and its baseline the snapshot, exactly unless it is a commit acknowledged over a directory in place of a document |
| BackendTrees.RunStaysWhole | src/backend/workspace.ts:139-299 | over every run without such a commit all workspaces stay so |
| BackendTrees.RunCommitsLiveFiles | src/backend/committed-tree.ts:7-34 | and the tree a commit then builds is the live files exactly when no directory is in place of a document |
| BackendTrees.DirectoryTakesPlace | src/backend/committed-tree.ts:7-34 | the input: a document removed, made a directory and written below; the committed tree holds the document and the file below it |
| Diff.DescribeDiff | src/history/diff.ts:102-152 | an entry exactly when kind, hash, mode or target differ; added and deleted exactly when one side is missing |
| Diff.MatchMoves | src/history/diff.ts:154-181 | the greedy loop computes the specified matching |
| Diff.DetectMoves | src/history/diff.ts:154-184 | unmatched entries and the moves |
| Diff.DiffRevisions | src/history/diff.ts:22-50 | the diff of all paths |
| DiffMeaning.GreedyFacts | src/history/diff.ts:154-181 | pairs have equal content, use each entry once, and nothing is left that could be paired |
| DiffMeaning.MaximalIsMaximum | src/history/diff.ts:154-191 | when equality of keys decides, a matching that cannot be extended is as large as any |
| DiffMeaning.DiffIsComplete | src/history/diff.ts:22-50 | the entries name, as path or origin, exactly the paths that differ |
| DiffMeaning.DiffNamesOnce | src/history/diff.ts:154-184 | no path is named twice |
| DiffMeaning.MovesAreMoves | src/history/diff.ts:154-191 | a reported move goes from a path that is gone to one that is new, with equal content |
| DiffMeaning.EntriesTellTruth | src/history/diff.ts:102-184 | every entry says of its path what happened to it, with the digests before and after: added, deleted, of another kind, of another content, or of another mode or link target alone; a move keeps kind, content and link target |
| DiffMeaning.MovesAreMaximum | src/history/diff.ts:154-191 | no pairing by content has more moves |
| Paths.NormalizeVirtualPath | src/core/path.ts:20-49 | the loop computes the normal form or the error |
| Paths.NormalIsProper | src/core/path.ts:20-49 | no segment of a normal path is empty, made of dots, reserved, or holds a separator, control character or encoded syntax |
| Paths.TextIsNormal | src/core/path.ts:20-49 | proper segments written out normalise to themselves |
| Paths.NormalizeIdempotent | src/core/path.ts:20-49 | normalisation is idempotent |
| Paths.AmbiguousIff | src/core/path.ts:20-29 | a path is refused as ambiguous exactly if it is empty or holds a control character, a backslash, or a percent sign with the code of a dot, slash or backslash |
| Paths.DotsVanish | src/core/path.ts:32-33 | an empty segment or a dot may be left out, wherever it stands |
| Paths.TwoDotsGoUp | src/core/path.ts:34-38 | two dots take the name before them away |
| Paths.Refused | src/core/path.ts:34-43 | two dots where no name is left lead out of the root, and a reserved name is refused, whatever follows |
| Paths.SameOrDescendantIsPrefix | src/core/path.ts:62-69 | containment of texts is containment of segments |
| Paths.MoveDescendantIff | src/core/path.ts:71-81 | the rest of the path ends up below the destination exactly unless it comes from the root into another directory |
| Paths.MoveInverse | src/core/path.ts:71-81 | between directories other than the root, moving back undoes moving |
| Mounts.CreateMountedFileSystem | src/mounts/compose.ts:12-66 | accepts exactly canonical, disjoint mount points outside the device directory that do not hide their root |
| Mounts.NormalizeHidden | src/mounts/compose.ts:40-44 | hidden roots in normal form |
| Mounts.ComposedDisjoint | src/mounts/compose.ts:13-31 | accepted mounts are pairwise unrelated |
| Mounts.ComposedIff | src/mounts/compose.ts:12-66 | requests are composed into exactly the mounts that answer them one by one, canonical, outside the device directory, not hidden whole, and are pairwise unrelated; otherwise refused |
| Mounts.AtMostOneMount | src/mounts/compose.ts:17-24 | mount points are unrelated exactly when no path lies in two mounts |
| Mounts.RoundTripIff | src/mounts/compose.ts:82-114 | translating a visible path to its source and back gives the path, exactly unless the presented root makes it the null device |
| Mounts.VisibleIff | src/mounts/compose.ts:82-114 | a hidden root takes away itself and everything below it, and the null device only if it holds its place in the source |
| Mounts.SourceIff | src/mounts/compose.ts:82-96 | a path is translated exactly if it lies in a mount and is visible there, to the null device or to its place below the root |
| Mounts.LandsOnNullIff | src/core/filesystem-view.ts:157-165 | only a root within the device directory can do that |
| Visitor.CommandVisitor.Node | src/policy/ast-visitor.ts:63-148 | the visit of every construct ends, by the inactive function names and then the size of what is left; calls in progress are as before, a refusal once given stays; every simple command in it, in whatever branch, loop, test, redirect or substitution, is in the list, words as written where they do not depend on variables; and on assignments, definitions and calls it reaches the functions and variables that Visited gives |
| Visitor.CommandVisitor.InvokeFunction | src/policy/ast-visitor.ts:178-219 | a call keeps the caller's positional and prefix-assigned variables, drops none, lists every command of the function's body, and is refused while the function is active |
| Visitor.CommandVisitor.ForLoop | src/policy/ast-visitor.ts:221-247 | every command in its words and body is listed; over at most 32 static words, the first command of the body is listed under each of the names the variable gives it |
| Visitor.CommandVisitor.Command | src/policy/ast-visitor.ts:156-176 | what is inside a command is visited; the command is listed, words as written where they do not depend on variables, unless its name is a function's, which is called instead |
| Visitor.CommandVisitor.Word | src/policy/ast-values.ts:23-31 | a static word evaluates to its text in every environment, and one with an unknown part never to a literal |
| Visitor.CommandProgram | src/policy/ast.ts:11-25 | the visit of a script in which no function name depends on variables ends, functions that call or redefine each other included; unless it is refused, every simple command written anywhere in the script, but in the body of a function or under a function's name, is in the list |
| Visitor.EndlessVisit | src/policy/ast-visitor.ts:178-258 | the input: a script whose functions name ever new functions after a variable; however many nested calls are allowed, the visit that CommandVisitor follows needs more |

## Left out

Assumptions that the properties need:

- Writers are serialised: the lease is exclusive and is not lost between its check and the complete record, which the
  repository's README admits as a race without a coordinator.
- SHA-256 is injective, so a digest is represented by what was digested; transaction and revision identifiers and
  etags are fresh.
- Operations on the live tree do not write through symbolic links; the destinations of `cp` and `mv` are absent or
  plain files; paths are outside the runtime-owned roots.
- Uploads of a failed commit that are still in flight land before the next recovery lists the store, or not at all;
  `ProtocolRuns.LateUploadsIff` says exactly what is lost otherwise. A write that reports failure is not applied later.
- A purge comes at rest: it does not overlap a commit and not what a cut one leaves to its recovery;
  `HistoryRuns.PurgeHarmlessIff` says what is lost otherwise.
- The in-memory file system is given by a small specification, `MemoryTree`; its own code is not part of this model.

Not modelled:

- Content types, timestamps of entries other than those in version digests, change lists in receipts, quotas, lease
  acquisition, observability.
- JSON and YAML parsing of records: records are datatypes. Error messages, and errors wrapped in other errors.
- The order of lists sorted by a collator: sets and maps stand for them, and no statement depends on the order.
- The order in which unresolved intents are rolled back: the invariant shows that there is at most one.
- HistoryRuns.RunLists: a commit or recovery on a purged store is the relation `Advances` or `Rests`; the classes are
  proved to follow it on stores never purged. Receipts of purged commits are gone, so their keys may be used again.
- Checkpoint creation, retention classes and revision previews.
- The fuzz score of the context search, which applying a diff ignores.
- `utimes` and hard links of the tracked file system.
- The filter of a diff by path, its previews and the lookup of checkpoints.
- The SQL functions: the server's documents after a commit are arbitrary, so nothing is claimed about the order in
  which it applies mixed mutations; replay by idempotency key is left to it. Codecs other than the plain one.
- Move bookkeeping corners: two moves into one destination, and a move source recreated and written back.
- Reads that fail inside an undo, and a second failing mutation in one batch. Patch paths are taken in normal form.
- Mount source identities and the guard on writes across mounts.
- Supabase clients, authentication, capabilities, command policy tables, ripgrep and AI tools; the shell parser, whose
  result the visitor is given. Environments of the visitor are values: it copies them or hands them on, never both.
- Visitor.CommandProgram: asks that no function name depends on variables, because `Visitor.EndlessVisit` has no end;
  which scripts with such names do end is left open, and whether the parser accepts them is not part of this model.
- Storage.ScopedStorage.Write: stands for every network call; a call that hangs is a call that failed.
- Backend.BackendWorkspace.Commit: quotas are not checked, because they only refuse more commits before anything is sent.
- Workspace.StorageWorkspace.Commit: quotas are not checked, for the same reason; the planned changes of a fingerprint
  are a set, since sorting them by a collator decides nothing else.
