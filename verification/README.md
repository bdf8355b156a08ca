# Verification of ipgaze's stateful core

ipgaze is a self-hosted IP lookup server. This project models the parts of it in which a
mistake is hard to see from one function body, and proves what they promise:

- **Configuration hot reload**: the reflective diff of two configuration trees, the rule
  that restart-required settings keep their running values, the graceful-reload rollback,
  and the manager's run over any sequence of file edits (`ConfigTree`, `ReloadPaths`,
  `ReloadClasses`, `Preserve`, `CopyPath`, `ConfigManager`).
- **GraphQL complexity guard**: exactly which documents pass, although the walk cuts off
  early (`Complexity`).
- **Listener hub**: every interleaving of accepting, switching generations and closing, and
  the server's shutdown order (`ListenerHub`).
- **Backup and restore**: what an archive holds and its checksum digests; which archives the
  extraction refuses; which directory layouts survive archive and extraction; what a restore
  whose calls fail leaves behind; what the three swaps of a restore give back; which backups
  retention keeps (`FileTree`, `Backup`, `BackupContents`, `Extraction`, `BackupLayout`,
  `Restore`, `RestoreRun`, `RestoreBundle`, `Retention`).
- **Self-rotating log writer**: conservation of the records over runs, where they are divided
  into files, and retention by count and by age (`LogWriter`, `LogTight`, `LogRetention`,
  `LogAge`).
- **Caches**: the expiring map under concurrent callers and the bounded response cache
  (`MemoryCache`, `ServerCache`).
- **PGP grace archive**: a retired key stays loadable for 30 days (`PgpArchive`).
- **Encodings**: shell, AppleScript and CEF quoting (`Quoting`), e-mail placeholders
  (`Template`), ULID packing (`Ulid`).

`Strings` holds Go's string order and the few string and sequence functions the others
share, and `Options` the option type.

Code that only computes is modelled by functions. Code that changes things in place is
modelled by classes and methods with loops, each proved equal to a function of the old
state, and the theorems are about those functions. Concurrent code is a state machine whose
steps are the critical sections and channel operations of the source. Clocks, random bytes,
file system outcomes, the hash of an address and the reload handler's result are inputs, so
every theorem holds for all of them.

## What the code does not do

Where the code falls short of what its comments promise, the model follows the code, a
lemma shows a failing case, and where the promise can be kept another gives the exact
condition.

- `copyConfigPath` skips inlined fields and cannot enter lists or maps, so a failed graceful
  reload still publishes such a setting (`RolledBackIffReached`, `AuditRotateIsNotReached`).
- When a graceful reload fails and nothing hot has changed, the handler is not called again
  with the tree that is published after the rollback (`LastCallIsPublishedIff`).
- A field at depth 15 whose selection set expands to nothing, because it only spreads a
  fragment that is not defined, is rejected although its depth is within the limit
  (`HollowSetAtLimitIsRejected`).
- `Switch` after `Close` panics, and a run panics in no other way
  (`PanicsIffSwitchAfterClose`); main's shutdown order prevents it. When a server shuts down
  before the hub is closed, the accept loop spins on a connection it holds, and only a Switch
  or the hub's Close frees it (`HeldAdvancesIff`, `OnlySwitchOrCloseFrees`,
  `ShutdownBeforeCloseSpins`).
- The archive names directories by their base names only. Among layouts whose directories do
  not lie in each other, apart from the database inside the data directory, exactly those
  survive whose base names differ from each other, from "db" and from "manifest.json"
  (`SurvivesIffDistinct`). Distinct names are enough wherever the directories lie
  (`DistinctSurvives`), so the bundle of macOS and Windows services survives under any free name
  (`BundledSurvivesIff`). The one directory that macOS uses for an ordinary user's config and
  data does not survive once the data is included (`SharedSurvivesIff`).
- Check 5 of `verifyBackup` reads the last `.json` entry instead of `manifest.json`: it finds
  the manifest exactly when no archived directory holds a file of such a name
  (`ManifestIsFoundIff`), and one theme file is enough to break it (`ThemeFileHidesManifest`).
- When `Stat` of an existing destination fails, `restoreReplaceDir` copies into the live tree
  and does not roll back. If it does not complete, the old tree is safe exactly when no write
  of that copy changes anything (`SafeIff`). If it completes, it reports success with the
  source merged into the old tree: the destination is the source exactly when every name in
  the old tree is also in the source, with the same kind (`CompletedRestoreFollowsLinks`,
  `CompletesWithSourceIff`); restoring an empty directory over one file leaves that file
  (`EmptyRestoreKeepsOldFile`).
- After a failed rollback, the old tree survives another attempt only if that attempt's own
  first `RemoveAll` removes nothing of it (`RetryKeepsOldTreeIff`). No caller can know that
  beforehand.
- A restore swaps in the config directory, the database and then the data directory, each found
  under its base name. With the database inside the data directory and both archived, the
  restored database is gone again. With the data not archived, a config directory or database of
  the same base name that was copied, because it could not be renamed, is taken for the data
  (`DataAfterRestore`, `DatabaseAfterRestore`). Everything is given back exactly in all other
  cases (`RestoreGivesBackIff`, `AlwaysGivesBackIff`). On the built-in Linux layout config and
  data have one base name, so a restore from a temporary directory on another file system
  replaces the data directory with the config directory (`LinuxRestoreReplacesData`).
- Two rotations of one log file in the same second overwrite an archive
  (`RunConservesIffSpaced`), and after one failed `Close` a log stays silent until it is
  reopened, although the comment says that logging never stops
  (`UsableIffRotationsWorked`, `FailedCloseSilencesWriter`).
- The first line written to a log file that was opened in an earlier period is rotated away
  before the next line, although both are of one period (`FirstLineOfPeriodIsAlone`). No other
  archive is split off without need (`EveryArchiveWasDue`).
- Pruning one log can delete another log's files, although the comment says that it never
  touches an unrelated file: app-audit.log counts as an archive of app.log
  (`AuditLogIsNotSafe`). A file is safe exactly when its name fails the prefix and suffix test
  (`SafeIffNoArchiveName`), and names without dashes are safe from each other
  (`DashFreeLogsAreSafe`).
- A live cached value is missing exactly when one Get read the key before it was set and
  deletes it afterwards (`LiveAbsentIffOverlapped`, `FreshSetCanBeDropped`).
- A response stored under an address whose hash is not its own breaks the response cache
  (`SetKeepsLinkedIff`, `MismatchedKeyBreaksCorrespondence`).
- Rendering depends on the order of the map exactly when a value holds the placeholder of
  another variable that stands for something else (`OrdersAgreeIffSettled`).

## Model

| member | source | states |
|---|---|---|
| ConfigTree.CompareConfigValue | src/config/hot_reload.go:220-325 | the loop over fields, keys and elements appends exactly the changed paths of the recursive comparison, in walk order |
| ConfigTree.CompareEmptyIffSame | src/config/hot_reload.go:220-325 | a comparison reports nothing exactly when the trees are structurally equal, nil and empty maps or lists counting as different |
| ConfigTree.CompareConfigsEmptyIffSame | src/config/hot_reload.go:211-218 | the same for whole configurations |
| ConfigTree.SameIsEquality | src/config/hot_reload.go:220-325 | without skipped fields, structural equality as the walk sees it is equality |
| ConfigTree.InCompareConfigs | src/config/hot_reload.go:211-218 | sorting the reported paths adds none and drops none |
| ConfigTree.ReportedPathDiffers | src/config/hot_reload.go:220-325 | every reported path is the path of a position that exists in the schema and at which the two trees differ |
| ConfigTree.CompareIsSymmetric | src/config/hot_reload.go:220-325 | swapping the two trees reports the same paths in the same order |
| ReloadPaths.CategorizeReloadChanges | src/config/hot_reload.go:430-441 | the loop puts every path in the bucket of its class and keeps the order |
| ReloadPaths.BucketsPartition | src/config/hot_reload.go:430-454 | every change is in exactly one bucket |
| ReloadPaths.StopIsSafe | src/config/hot_reload.go:352-360 | where the preserve walk stops, no setting below needs a restart |
| ReloadPaths.OutsideRoot | src/config/hot_reload.go:352-360 | a path below a restart-required setting that is not covered by a listed subtree is not restart-required itself |
| ReloadClasses.UnderRootIff | src/config/hot_reload.go:352-360 | the string prefix test on a dotted root is a prefix test on the segments of the path |
| ReloadClasses.RestartIffSegments | src/config/hot_reload.go:352-360 | exactly which settings need a restart: port, address and daemonize of the server, and everything in the ssl, database and tor sections, at the top or in the server section |
| ReloadClasses.GracefulIffSegments | src/config/hot_reload.go:443-454 | exactly which settings need a graceful reload: the base URL, everything inside the logging section but the level, and the six timeouts |
| Preserve.PreserveRestartValues | src/config/hot_reload.go:368-408 | setting fields one by one gives the new tree with the old restart-required values |
| Preserve.PreserveFiltersCompare | src/config/hot_reload.go:368-421 | below any path, comparing with the preserved tree is comparing with the new one and dropping the restart-required reports |
| Preserve.PreserveFiltersCompareIff | src/config/hot_reload.go:368-421 | for every schema and every pair of trees, comparing with the preserved tree is comparing with the new one and dropping the restart-required reports, exactly when the pair can be told apart at the restart roots |
| Preserve.PreserveCommutesIff | src/config/hot_reload.go:211-421 | diff and preserve commute for a pair of configurations exactly when each pointer above a restart root is nil on both sides or on neither, no map above one reports a restart-required path, and every report at or below a root needs a restart |
| Preserve.RootReportsRestartIff | src/config/hot_reload.go:352-360 | the reports at or below a restart root all need a restart exactly when every field, entry or element there that differs is covered by a listed subtree |
| Preserve.PreserveCommutesWithCompare | src/config/hot_reload.go:211-421 | diff and preserve commute for every pair of configurations of a schema of the right shape |
| Preserve.ShapeIsExact | src/config/hot_reload.go:211-421 | diff and preserve commute for all pairs of a schema if and only if only structs, lists and leaves stand above its restart roots and whatever can differ below a root is covered by a listed subtree |
| Preserve.CoveredReportsRestart | src/config/hot_reload.go:352-360 | every path reported at or below a restart root needs a restart itself |
| Preserve.RestartAgreeIffNoneReported | src/config/hot_reload.go:211-360 | for every schema and pair, two trees agree on all restart-required settings exactly when the pair separates and the diff reports none of them |
| CopyPath.CopyConfigPath | src/config/hot_reload.go:474-507 | the scan over the fields of each struct copies the old value at the path |
| CopyPath.PreserveConfigPaths | src/config/hot_reload.go:466-472 | copying the paths one by one |
| CopyPath.UnreachedIsUnchanged | src/config/hot_reload.go:474-507 | a path that is not a chain of named struct fields leaves the tree as it is |
| CopyPath.CopyFiltersCompare | src/config/hot_reload.go:474-507 | a copy that reaches its target removes from the diff exactly the reports at or below that path |
| CopyPath.CopyAllFiltersCompare | src/config/hot_reload.go:466-507 | all copies together remove exactly the reports at or below the reached paths |
| CopyPath.ReachedReportIsAlone | src/config/hot_reload.go:220-325 | if a reached path is reported, nothing below it is |
| ConfigManager.PublishedDiff | src/config/hot_reload.go:132-190 | a published tree differs from the running one at exactly the changed paths that are hot, or graceful and not rolled back |
| ConfigManager.PendingSettings | src/config/hot_reload.go:132-190 | an edit leaves pending exactly the changed settings that need a restart, and the graceful ones whose reload was unavailable or failed |
| ConfigManager.StepKeepsRestartValues | src/config/hot_reload.go:132-190 | no edit changes a restart-required value of the published configuration |
| ConfigManager.HandlerCalledIff | src/config/hot_reload.go:154-181 | the reload handler is called exactly when there is one and some change needs no restart, and a second time exactly when it failed and both hot and graceful settings changed |
| ConfigManager.HandlerIsToldPaths | src/config/hot_reload.go:154-181 | the first call names exactly the changes that need no restart, the second one exactly the hot ones |
| ConfigManager.HandlerSeesNoRestartChange | src/config/hot_reload.go:154-181 | every tree the handler is given keeps the running value of each restart-required setting, and the first one has every other change of the file |
| ConfigManager.LastCallIsPublishedIff | src/config/hot_reload.go:154-181 | the published tree is the one the handler was given last, unless the handler failed, nothing hot changed and the rollback reaches some graceful change |
| ConfigManager.PatchedDiff | src/config/hot_reload.go:362-507 | a tree with subtrees written back differs from the parsed one only at paths of the class that was written back |
| ConfigManager.StepPublishesHotPaths | src/config/hot_reload.go:132-190 | after every edit the published tree equals the parsed file at every hot path |
| ConfigManager.StepRollsGracefulBack | src/config/hot_reload.go:132-190 | when the reload is unavailable or fails, a changed graceful path becomes pending, and it keeps its old value exactly when nothing is published or the copy reaches it |
| ConfigManager.RolledBackIffReached | src/config/hot_reload.go:466-507 | a changed graceful path is rolled back exactly when it is a chain of named, not inlined, struct fields |
| ConfigManager.AppConfigIsGood | src/config/config.go:380-429 | an excerpt of the real configuration, with leaf and struct restart roots, a pointer to a setting and the inlined audit settings, meets the hypotheses of these theorems |
| ConfigManager.AuditRotateIsNotReached | src/config/config.go:1479-1484 | the inlined rotation settings of the audit log are graceful and out of reach of the rollback |
| ConfigManager.RunKeepsBootValues | src/config/hot_reload.go:132-190 | over every run of edits, handler outcomes and acknowledgements, the published configuration keeps its boot value at every restart-required setting |
| ConfigManager.RunFollowsFileAtHotPaths | src/config/hot_reload.go:132-190 | over every run, right after each edit the published configuration equals the file at every hot path |
| ConfigManager.RunListsExactly | src/config/hot_reload.go:132-190 | over every run, a setting is listed as pending exactly when some edit since the last acknowledgement changed it and could not apply it |
| ConfigManager.RunPendingIsExact | src/config/hot_reload.go:132-190 | over every run, the restart flag is up exactly when there is such an edit and such a setting |
| ConfigManager.Manager.constructor | src/config/hot_reload.go:59-69 | a new manager holds the boot configuration, with nothing pending |
| ConfigManager.Manager.SetReloadHandler | src/config/hot_reload.go:51-55 | registers the handler and changes nothing else |
| ConfigManager.Manager.ApplyConfigChanges | src/config/hot_reload.go:132-190 | the in-place method takes the step of the model, handler calls included |
| ConfigManager.Manager.ClearPendingRestart | src/config/hot_reload.go:528-533 | clears the flag and the list and changes nothing else |
| Complexity.Checker.MeasureSelectionSet | src/graphql/complexity.go:65-127 | the recursion over the shared visiting map and alias counter computes the measure, terminates, and leaves the visiting map as it found it |
| Complexity.CheckQueryComplexity | src/graphql/complexity.go:25-59 | collecting the fragments and the loop over the operations give the verdict of the model; an empty or unparsable query passes |
| Complexity.MeasureIsSound | src/graphql/complexity.go:65-127 | a measure within the limits is that of the full expansion, which then exists |
| Complexity.MeasureIsComplete | src/graphql/complexity.go:65-127 | a finite expansion within the limits is measured in full, despite the cut-offs |
| Complexity.ExpandableIffAcyclic | src/graphql/complexity.go:65-127 | a selection set has a finite expansion exactly when no chain of spreads visits a fragment twice |
| Complexity.OperationMeasure | src/graphql/complexity.go:25-127 | one operation passes exactly when its expansion exists, opens few enough selection sets and adds few enough aliases |
| Complexity.FragmentsOfIsTable | src/graphql/complexity.go:34-39 | a name has a fragment exactly when some definition bears it, and it is the body of the last one |
| Complexity.AcceptedExactly | src/graphql/complexity.go:25-127 | exactly which documents pass, whatever they hold, for the table of the last definition of each fragment: every operation expands, opens fewer than 15 selection sets inside one another, and the aliases total at most 50 |
| Complexity.RejectionIsTrue | src/graphql/complexity.go:41-59 | the reason given for a rejection holds: some operation reaches a fragment cycle, or some operation is too deep or cyclic, or the aliases of all operations are exactly the reported number, over 50 |
| Complexity.AcceptedOnlyWithinLimits | src/graphql/complexity.go:15-59 | an accepted document reaches no fragment cycle, has depth at most 15 and at most 50 expanded aliases |
| Complexity.FilledDocumentAcceptedIff | src/graphql/complexity.go:15-59 | a document without empty selection sets whose spreads are all defined is accepted exactly when it is within those limits |
| Complexity.OneFieldIsAccepted | src/graphql/complexity.go:25-59 | the shortest such document, one field with or without an alias, is accepted |
| Complexity.HollowSetAtLimitIsRejected | src/graphql/complexity.go:65-127 | a field at depth 15 with nothing below it but a spread of an undefined fragment is rejected, although the depth is within the limit |
| ListenerHub.EveryConnectionHasOneFate | src/netutil/listener_hub.go:43-113 | in every interleaving each accepted connection is held by the accept loop, was delivered to one generation once, or was closed once, and none is held when the loop returns |
| ListenerHub.LoopReturnsIffAcceptFails | src/netutil/listener_hub.go:77-104 | over every run the accept loop has returned exactly when an Accept failed, and the socket is open exactly until Close closes it |
| ListenerHub.AcceptsAgainIff | src/netutil/listener_hub.go:77-104 | over every run the next connection can be accepted exactly when the earlier ones are all delivered or closed, the socket is open, no Accept failed and no Switch came after Close |
| ListenerHub.DroppedOnlyAfterClose | src/netutil/listener_hub.go:83-91 | no connection is closed unserved before the hub is closed |
| ListenerHub.DeliveredToKnownGeneration | src/netutil/listener_hub.go:83-97 | a connection is delivered only after it was accepted, and only to the first generation or one that an earlier Switch made current |
| ListenerHub.CurrentClosedOnlyByItsServer | src/netutil/listener_hub.go:43-75 | in every run without a panic the current generation is closed only if its own server closed its listener |
| ListenerHub.AcceptedAfterSwitchGoesForward | src/netutil/listener_hub.go:43-113 | a connection accepted after a Switch never reaches an older generation |
| ListenerHub.RunKeepsOldGenerationsClosing | src/netutil/listener_hub.go:43-75 | a generation that is no longer current is closed, or a call is about to close it |
| ListenerHub.LoopEndsAfterShutdown | src/netutil/listener_hub.go:54-104 | after shutdown the accept loop never blocks and every step brings it closer to its end |
| ListenerHub.HeldAdvancesIff | src/netutil/listener_hub.go:77-104 | the accept loop can deliver or drop the connection it holds, with nobody receiving from a closed generation, exactly when the current generation is gone or open or the one on offer is still open |
| ListenerHub.WaitsForOpenGeneration | src/netutil/listener_hub.go:92-97 | a connection on offer to an open generation can only be delivered to it |
| ListenerHub.StuckLoopSpins | src/netutil/listener_hub.go:77-104 | otherwise it goes round for ever: it is never blocked, and nothing but its own position changes |
| ListenerHub.OnlySwitchOrCloseFrees | src/netutil/listener_hub.go:43-75 | over every run, such a connection is freed by a Switch or by the Close of the hub and by no other step |
| ListenerHub.ShutdownBeforeCloseSpins | src/main.go:1966-1985 | a server that shuts down before the hub is closed leaves the loop in that state |
| ListenerHub.CurrentGoneIffClosed | src/netutil/listener_hub.go:43-75 | in every run without a panic the hub has no current generation exactly when Close has taken it |
| ListenerHub.PanicsIffSwitchAfterClose | src/netutil/listener_hub.go:43-75 | a run ends in a nil dereference exactly when some Switch in it comes after the Close |
| ListenerHub.ShutdownOrderPreventsPanic | src/main.go:1981-1990 | with the watcher stopped and awaited before Close, every run of the server is a run of the hub in which no Switch follows Close |
| ListenerHub.ShutdownCanProceed | src/main.go:1981-1990 | the shutdown cannot get stuck: in every run, until the hub is closed some step of main or the watcher is enabled and brings the server closer to it |
| ListenerHub.ClosedServerIsShutDown | src/config/hot_reload.go:72-93 | once main has closed the hub, every Switch has returned |
| FileTree.WalkMerges | src/main.go:4516-4549 | writing what a walk lists over any tree merges exactly the tree without excluded subtrees and links into it, or meets a conflict |
| FileTree.MergesIffFits | src/main.go:4516-4549 | a tree can be written over another exactly when directories meet directories and files meet files, or links that do not lead to a directory |
| FileTree.MergeIsTreeIff | src/main.go:4516-4549 | the result is the tree that was written, or reads as it through links, exactly when every name that was there is also in that tree, with the same kind |
| FileTree.WalkRebuilds | src/backup_crypto.go:408-449 | writing back what a walk archived rebuilds exactly the tree without excluded subtrees and symbolic links |
| FileTree.KeptHasSameBytes | src/backup_crypto.go:294-331 | hashing the kept tree elsewhere gives the bytes of hashing the original |
| FileTree.KeptFile | src/backup_crypto.go:408-449 | a walk keeps a regular file exactly when no exclude covers its path |
| FileTree.WalkHoldsKept | src/backup_crypto.go:408-449 | a file entry is archived exactly when the kept tree holds that file under that name |
| FileTree.WalkOverwrites | src/backup_crypto.go:457-529 | extracting a walk over a directory that already holds one of its files gives the kept tree |
| Backup.ExtractBackupArchive | src/backup_crypto.go:457-529 | the extraction loop with its limits and its path checks writes the entries in order or fails, as the function it is proved against; Extraction.ExtractsExactly says when |
| Backup.ExtractionWritesAll | src/backup_crypto.go:457-529 | a successful extraction of plain names has written every entry |
| Extraction.EscapesIff | src/backup_crypto.go:497-504 | a name is refused exactly when it is absolute or some prefix of it has more `..` than real segments; otherwise its cleaned form has only real segments |
| Extraction.ExtractsExactly | src/backup_crypto.go:457-529 | extraction succeeds exactly when no name is absolute or leads out, file count, each size, total and ratio are within the limits, and no entry gets in another's way; then every directory and file is written under its cleaned name |
| Extraction.ExtractedWithinLimits | src/backup_crypto.go:477-496 | on success the file count, each size, the total and the expansion ratio are within the limits |
| Extraction.ExtractedNamesAreReal | src/backup_crypto.go:497-524 | no tree that extraction returns holds a name `..`, `.` or an empty one |
| Extraction.ClimbingNameIsRefused | src/backup_crypto_test.go:483-495 | an entry named `../x` is refused, whatever else is in the archive and whatever the limits |
| BackupContents.WalkHolds | src/backup_crypto.go:408-449 | a walk archives exactly the directories and regular files that no exclude covers |
| BackupContents.ArchiveHoldsExactly | src/backup_crypto.go:356-449 | for every tree and layout, an archive holds exactly the manifest, config without ssl unless included, db, and if included data without a db inside it, each file with its bytes |
| BackupContents.SslArchivedIffIncluded | src/backup_crypto.go:211-216 | without include-ssl no entry lies in the ssl directory, with it every file there is an entry |
| BackupContents.DatabaseArchivedOnce | src/backup_crypto.go:218-226 | a database inside the included data directory is archived under db and nowhere else |
| BackupContents.ChecksumDigestsArchive | src/backup_crypto.go:294-351 | the checksum digests exactly the bytes of the archived files after the manifest, in archive order |
| Backup.ArchiveRoundTrip | src/backup_crypto.go:356-449 | extracting a built archive gives the restored tree, ssl exclusion and nested or separate db directory included |
| Backup.BuildSucceedsIffHashable | src/backup_crypto.go:294-449 | building the archive and computing the checksum fail on the same trees: those with a regular file, or a link to one, in the place of a directory to be archived |
| Backup.ChecksumSurvivesRoundTrip | src/main.go:3995-4012 | for every file tree and layout with distinct directory names, if the archive is built and extracted, the checksum of the extracted layout equals that of the source |
| Backup.FindManifest | src/main.go:3943-3960 | check 5 keeps the last entry named `.json` |
| Backup.ManifestIsFoundIff | src/main.go:3943-3960 | that entry is the manifest exactly when no regular file kept from the config directory, the database or the included data has a name ending in `.json` |
| Backup.ThemeFileHidesManifest | src/main.go:3943-3960 | with a `.json` file in the theme directory of the config directory, that entry is not the manifest |
| BackupLayout.ExtractionWithinLimits | src/backup_crypto.go:457-529 | entries within the limits on files, sizes and expansion ratio, for an archive of any size, that do not get in each other's way are all written |
| BackupLayout.ManifestNameFails | src/main.go:3995-4012 | a directory named manifest.json fails the verification, even with nothing to back up |
| BackupLayout.ConfigNameFails | src/main.go:3995-4012 | a config directory that shares its base name with the database entry or the included data is hashed twice |
| BackupLayout.DataNameFails | src/main.go:3995-4012 | a data directory named db overwrites the database on extraction and is then excluded as the database |
| BackupLayout.DistinctSurvives | src/main.go:3995-4012 | wherever the directories lie, inside each other or not, every tree survives backup, extraction under any limits and verification if the base names are distinct |
| BackupLayout.SurvivesIffDistinct | src/main.go:3995-4012 | for every layout whose directories do not lie in each other, db inside data aside: every tree survives backup, extraction under any limits and verification if and only if the base names are distinct |
| BackupLayout.BundledSurvivesIff | src/paths/paths.go:196-219 | data and db inside the config directory: every tree survives if and only if that directory is not named db, manifest.json or, with the data included, data |
| BackupLayout.SharedSurvivesIff | src/paths/paths.go:332-342 | one directory for config and data with db inside: every tree survives if and only if the data is not included and the directory is not named db or manifest.json |
| Restore.CopyWalkFollows | src/main.go:4516-4549 | the copy meets no failing entry exactly when every link leads to a file, and then it walks the tree with its links followed |
| Restore.CopyMerges | src/main.go:4516-4549 | over any destination, a copy without errors finishes exactly when every link of the source leads to a file and the source fits, and a finished copy has merged it, links followed |
| Restore.CopyReproducesSource | src/main.go:4516-4549 | copying into an empty place reproduces the source, links followed; with a link that leads elsewhere no copy finishes |
| Restore.RestoreNeverLosesContent | src/main.go:4473-4514 | whichever calls fail, a restore that does not complete keeps the old tree whole, at the destination unless the rollback itself failed |
| Restore.CompletedRestoreMerges | src/main.go:4473-4549 | a completed restore leaves the source, or, when Stat of an existing destination failed and no rename helped, the source merged into the live tree |
| Restore.CompletedRestoreHoldsSource | src/main.go:4473-4549 | for a source without links, a completed restore leaves exactly the source if and only if the old tree was absent, moved aside or replaced by rename, or every name in it is in the source with the same kind |
| Restore.CompletedRestoreFollowsLinks | src/main.go:4473-4549 | the same for every source, with the destination read through its links |
| Restore.CompletesWithSourceIff | src/main.go:4473-4549 | over every outcome of the other calls, a completed restore leaves the source exactly when there was no old tree, Stat works, the copy cannot complete, or every name in the old tree is in the source with the same kind |
| Restore.LeftoverStays | src/main.go:4473-4549 | a file of the old tree that the source does not have survives a restore that reports success |
| Restore.EmptyRestoreKeepsOldFile | src/main.go:4473-4549 | an empty directory restored over one with a file reports success and leaves the file |
| Restore.HarmfulFault | src/main.go:4516-4549 | if a write of the copy would change the destination, some I/O error leaves it changed by an unfinished copy |
| Restore.SafeIff | src/main.go:4473-4549 | the guarantee holds for every outcome of the other calls exactly when Stat of an existing destination works or no write of the copy can change the destination |
| Restore.MissingSourceIsSafe | src/main.go:4473-4549 | a missing source never costs the old tree |
| Restore.AnyByteIsHarmful | src/main.go:4516-4549 | a source that holds a byte and fits into the destination is never harmless |
| Restore.RetryKeepsOldTreeIff | src/main.go:4473-4503 | after a failed rollback, the old tree survives every outcome of the other calls of a second attempt exactly when that attempt's own first RemoveAll, whose outcome no caller knows beforehand, removes nothing of it and the destination cannot be renamed onto it |
| Restore.Disk.RestoreReplaceDir | src/main.go:4473-4503 | the in-place method follows the model through every outcome |
| Restore.Disk.RestoreMoveDir | src/main.go:4505-4514 | rename, or copy; a failed copy leaves what it has written |
| Restore.Disk.RestoreCopyDir | src/main.go:4516-4531 | the walk writes entry after entry and stops at the first error, with the last file possibly cut short |
| RestoreRun.SwapIsReplaceDir | src/main.go:4473-4503 | with working calls and a source without links, restoreReplaceDir completes, leaves nothing beside the destination, and makes of the source and the destination what the swap of the model makes of them, renaming or copying |
| RestoreRun.ConfigComesBack | src/main.go:4272-4288 | whichever swaps could rename, the config directory after a restore is the archived one, with the live ssl directory if the archive had none, or the live one if none was archived |
| RestoreRun.LiveSslSurvives | src/main.go:4272-4288 | whichever swaps could rename, a live ssl directory survives a restore from an archive without one, links followed |
| RestoreRun.DataAfterRestore | src/main.go:4272-4324 | the data directory after a restore is what the third swap finds under its name: the archived data, or a copied config directory or database of that name; if there is nothing, no place in it has changed outside the database |
| RestoreRun.DataComesBack | src/main.go:4317-4324 | after a restore an archived data directory is back, under every combination of renaming and copying |
| RestoreRun.DatabaseAfterRestore | src/main.go:4296-4324 | the database after the three swaps: what the new data directory holds in its place if the database lies inside a data directory that was replaced, otherwise the archived one, or the live one if none was archived |
| RestoreRun.RestoreGivesBackIff | src/main.go:4272-4324 | for each outcome of the renames: over every live tree, a completed restore brings back what was archived and leaves the rest as it was, exactly when the database is not inside the data directory with both archived, and no extracted entry is taken for data that was not archived |
| RestoreRun.AlwaysGivesBackIff | src/main.go:4272-4324 | the same over every outcome of the renames: it holds exactly when it holds with everything copied |
| RestoreRun.LinuxRestoreReplacesData | src/paths/paths.go:232-242 | on the built-in Linux layout every backup survives its verification, but a restore that has to copy the config directory leaves the data directory equal to the config directory, and the database only what that holds under its name |
| RestoreBundle.BundledRestoreGivesBackIff | src/paths/paths.go:196-219 | data and db inside the config directory: a completed restore brings the whole directory back, with the live ssl directory if the archive had none, exactly when no copied config directory is taken for data that was not included |
| RestoreBundle.SharedRestoreGivesBack | src/paths/paths.go:332-342 | one directory for config and data with db inside: a completed restore of a backup without included data brings the whole directory back, whichever swaps could rename |
| LogWriter.SanitizeLine | src/log/format.go:14-27 | the loop drops control characters |
| LogWriter.SanitizedHolds | src/log/format.go:14-27 | sanitizing drops the characters below the space, except the tab, and the delete character, and no others |
| LogWriter.CleanLineStays | src/log/format.go:14-27 | a line without such characters is written as it is |
| LogWriter.SanitizedConcat | src/log/format.go:14-27 | sanitizing works character by character, in order |
| LogWriter.OneRecordPerLine | src/log/format.go:14-27 | splitting a file of sanitized lines at newlines gives back exactly the records |
| LogWriter.FileBytesAreTextBytes | src/log/rotate.go:160-171 | the size kept for a file is the number of bytes of its text, newlines included |
| LogWriter.CharBytesAreUtf8 | src/log/rotate.go:160-171 | a character counts as many bytes as section 3 of RFC 3629 gives it |
| LogWriter.PeriodKeyIsMonotone | src/log/rotate.go:126-140 | the period key never decreases while the clock is not turned back |
| LogWriter.SamePeriodIff | src/log/rotate.go:126-140 | two readings have the same key exactly when they fall in the same day, ISO week, month or year |
| LogWriter.ActiveIsNoArchive | src/log/rotate.go:152-156 | pruning never takes the active file for an archive |
| LogWriter.ArchiveNamesSortByTime | src/log/rotate.go:144-148 | archive names, gzipped or not, sort in the order of their times |
| LogWriter.PruneIsExact | src/log/rotate.go:215-272 | pruning removes exactly the archives the policy dooms and the file system lets go; in count mode the newest `count` survive |
| LogWriter.PruneRemovesOnlyArchives | src/log/rotate.go:215-272 | whatever the mode and whatever fails, nothing but files with archive names is removed |
| LogWriter.RotatedNameIsArchive | src/log/rotate.go:144-156 | every name a rotation gives, gzipped or not, is recognized as an archive of that log |
| LogWriter.SafeIffNoArchiveName | src/log/rotate.go:150-156 | a file is out of reach of every pruning exactly when its name fails the prefix and suffix test |
| LogWriter.DashedLogIsNotSafe | src/log/rotate.go:150-156 | a log whose name extends the stem of another with a dash can be deleted by the other |
| LogWriter.AuditLogIsNotSafe | src/log/rotate.go:150-156 | pruning app.log can delete app-audit.log |
| LogWriter.DashFreeLogsAreSafe | src/log/rotate.go:150-156 | logs with dash-free names and different stems never prune each other, neither the active file nor archives |
| LogWriter.RemoveDoomed | src/log/rotate.go:243-271 | the loops over the archives, newest first |
| LogWriter.RunIsSegmented | src/log/rotate.go:160-211 | over every run with a monotone clock, every file is within the ceiling or one line, and its lines fall in one period, even when the period anchor is stale because the file was empty |
| LogTight.EveryArchiveWasDue | src/log/rotate.go:160-213 | over every run without two rotations in one second, each archive was due: it and the next line exceed the ceiling, or its last line is of another period than the rotation, or its only line is of another period than the opening of the file |
| LogTight.NeighboursExceedCeiling | src/log/rotate.go:160-171 | without a period, a file and the first line of the next one exceed the ceiling |
| LogTight.PrunedRunIsDue | src/log/rotate.go:160-272 | the same for every archive that retention by count or age leaves |
| LogTight.FirstLineOfPeriodIsAlone | src/log/rotate.go:160-171 | the first line into a file opened in an earlier period is rotated away before the next one of the same period |
| LogTight.ScheduledLeavesNothingDue | src/log/rotate.go:277-290 | after a scheduled check the active file is within the ceiling and all its lines are of the period of the check |
| LogWriter.RunConservesIffSpaced | src/log/rotate.go:177-211 | over every run with retention off, archives in name order and then the active file are exactly the records in the order written, if and only if no two rotations fall in one second |
| LogWriter.RunReadsBack | src/log/manager.go:113-141 | read back as text, the files of such a run give the records one by one |
| LogWriter.UsableIffRotationsWorked | src/log/rotate.go:173-211 | over every run with any failures, the writer is usable exactly when every rotation since the last restart could close and reopen |
| LogWriter.RotationFailureKeepsLines | src/log/rotate.go:177-211 | whichever calls fail, a rotation under a new name loses no line |
| LogWriter.WrittenIffWorks | src/log/manager.go:113-141 | whatever fails, a new line is on disk after its write exactly when the writer is then usable and the write worked |
| LogWriter.RunSizeIsExact | src/log/rotate.go:160-213 | over every run, whatever fails, the size that decides about rotation is that of the active file |
| LogWriter.FailedCloseSilencesWriter | src/log/rotate.go:183-185 | after one failed close every line is dropped until the writer is reopened |
| LogWriter.Writer.constructor | src/log/manager.go:198-226 | opening takes size and period anchor from an existing file |
| LogWriter.Writer.PruneLocked | src/log/rotate.go:215-272 | the in-place method prunes as the model does |
| LogWriter.Writer.RotateLocked | src/log/rotate.go:177-211 | the in-place method follows the model through every outcome |
| LogWriter.Writer.WriteLine | src/log/manager.go:113-141 | sanitize, rotate if due, append |
| LogWriter.Writer.CheckRotation | src/log/rotate.go:277-290 | rotate if due, otherwise prune |
| LogRetention.PruneKeepsLast | src/log/rotate.go:215-272 | pruning by count leaves exactly the active file and the last `n` archives |
| LogRetention.CountRunFollows | src/log/rotate.go:177-290 | a run that keeps `n` archives rotates when the run that keeps all does, and its directory is the other one narrowed to the last `n` archives |
| LogRetention.CountRunKeepsNewest | src/log/rotate.go:177-290 | after every run without two rotations in one second, the directory holds the archives of the last `n` rotations, and what is left of the records is an unbroken tail |
| LogRetention.NothingLostWithinCount | src/log/rotate.go:177-290 | with no more rotations than archives to keep, no record is lost |
| LogRetention.NoneRunKeepsNothing | src/log/rotate.go:266-270 | a writer that keeps no archive has none at any time of any run |
| LogAge.PruneNarrowed | src/log/rotate.go:251-262 | pruning by age a directory that has lost only archives that were too old leaves exactly the active file and the newest archives, as many as are young enough |
| LogAge.AgeRunFollows | src/log/rotate.go:177-290 | a run that keeps archives for some time rotates when the run that keeps all does, and its directory is the other one narrowed to what was young at the last pruning; archives are modified in the order of their names |
| LogAge.AgeRunLeavesYoung | src/log/rotate.go:251-262 | after every run without two rotations in one second, an archive is left exactly when the last pruning came no later than the retention age after its rotation, if archives are compressed, and otherwise after its last line |
| LogAge.AgeRunKeepsTail | src/log/rotate.go:177-290 | after such a run the directory holds the archives of the last rotations, and what is left of the records is an unbroken tail |
| MemoryCache.HitIsLatestUnexpired | src/cache/cache.go:172-188 | in every interleaving, a returned value is the latest Set of the key when the Get read it, with no Delete or Flush since, and unexpired when checked |
| MemoryCache.MissIsHonest | src/cache/cache.go:172-188 | a Get answers when it reads exactly if the key is not in the map, with a miss, and misses a live value only if another Get has dropped it |
| MemoryCache.EntriesAreLatest | src/cache/cache.go:150-214 | the map never holds anything but the latest Set of a key |
| MemoryCache.LivePresentIffNotDropped | src/cache/cache.go:150-188 | a key whose latest Set is live is present exactly when no Get has dropped it since; the janitor never takes it |
| MemoryCache.SweepLeavesLive | src/cache/cache.go:150-168 | after a pass of the janitor exactly the entries that were there and have not expired are left |
| MemoryCache.LiveAbsentIffOverlapped | src/cache/cache.go:150-200 | a key whose latest Set is live is missing exactly when one Get read the key before that Set and deleted it after |
| MemoryCache.UndisturbedSetStays | src/cache/cache.go:150-200 | if no Get of the key is under way when it is set, the value stays until it expires or is deleted, flushed or set again |
| MemoryCache.FreshSetCanBeDropped | src/cache/cache.go:172-188 | a run in which a live value is lost to the delete step of an older Get |
| MemoryCache.GetIsItsSteps | src/cache/cache.go:172-188 | a Get with nothing between its steps is the sequential Get |
| MemoryCache.SequentialGetIsExact | src/cache/cache.go:150-214 | without interleaving a Get equals a map that forgets nothing, read with expiry, so lazy deletion and sweeps cannot be observed |
| MemoryCache.Cache.Get | src/cache/cache.go:172-188 | returns a fresh buffer with the stored bytes, deletes an expired entry |
| MemoryCache.Cache.Set | src/cache/cache.go:190-200 | stores a fresh copy, so the caller's buffer is never shared |
| MemoryCache.Cache.SweepOnce | src/cache/cache.go:150-168 | one pass removes exactly the expired entries, in any order of visiting |
| MemoryCache.Cache.Delete | src/cache/cache.go:202-207 | removes the key and nothing else |
| MemoryCache.Cache.Flush | src/cache/cache.go:209-214 | removes everything |
| ServerCache.SetIsEnqueue | src/server/cache.go:52-78 | Set keeps map and list in one-to-one correspondence and is a bounded queue that makes room from the old end |
| ServerCache.LinkedSameSize | src/server/cache.go:52-78 | map and list have one size, so the capacity check on the map bounds the list |
| ServerCache.RunIsNewestPart | src/server/cache.go:52-103 | over every run of Set and Resize the cache holds the newest part of the latest Sets, so eviction is oldest first |
| ServerCache.SizeWithinCapacity | src/server/cache.go:52-78 | after a Set at positive capacity the cache is within capacity, even right after a shrinking Resize |
| ServerCache.CapacityIsLast | src/server/cache.go:94-103 | over every run the capacity is that of the last Resize to one that is not negative, or the initial one |
| ServerCache.ResizeEvictsNothing | src/server/cache.go:94-103 | a Resize evicts nothing and starts the count of evictions anew |
| ServerCache.GetIsLatestOrEvicted | src/server/cache.go:81-90 | Get returns the latest Set of the address unless that Set has been evicted, and nothing else |
| ServerCache.SetIsAccounted | src/server/cache.go:52-78 | every removal is a counted eviction or a replacement |
| ServerCache.SetKeepsLinkedIff | src/server/cache.go:52-78 | the correspondence survives a Set exactly when the response's own address hashes to the key |
| ServerCache.MismatchedKeyBreaksCorrespondence | src/server/cache.go:52-78 | a mismatched Set leaves a stale map entry, and the map outgrows the capacity |
| ServerCache.Cache.constructor | src/server/cache.go:33-42 | an empty cache, a negative capacity clamped to zero |
| ServerCache.Cache.EvictOldest | src/server/cache.go:62-73 | the eviction loop |
| ServerCache.Cache.Set | src/server/cache.go:52-78 | the in-place method is the modelled Set |
| ServerCache.Cache.Get | src/server/cache.go:81-90 | the lookup by hash |
| ServerCache.Cache.Resize | src/server/cache.go:94-103 | changes the capacity, resets the eviction counter, evicts nothing, rejects negative values |
| Retention.KeepPeriodic | src/backup_retention.go:180-195 | marks exactly the newest `n` backups that match the rule |
| Retention.BucketCount | src/backup_retention.go:180-195 | a bucket holds `n` backups, or all that match |
| Retention.KeepSet | src/backup_retention.go:216-229 | a backup is marked exactly when it is among the newest max(1, MaxBackups) or in a periodic bucket |
| Retention.KeptExactly | src/backup_retention.go:216-229 | exactly which backups are kept: the newest MaxBackups and always the newest one, and the newest few written on a Sunday, on the first of a month and on the first of a year |
| Retention.CountPhase | src/backup_retention.go:216-241 | the count phase leaves exactly the marked backups and those that cannot be removed |
| Retention.SurvivorsHold | src/backup_retention.go:230-241 | a backup is left exactly when it is kept or cannot be removed |
| Retention.NewestSurvivesCount | src/backup_retention.go:216-241 | the newest backup always survives the count phase |
| Retention.SizePhase | src/backup_retention.go:248-262 | the tracked total is the size of what is left, whatever fails, and the loop stops as soon as it is within the cap or has tried every file |
| Retention.LongestPrefixIsLeft | src/backup_retention.go:248-262 | with every removal working, the longest newest-first prefix within the cap is left |
| Retention.NewestSurvivesCapIff | src/backup_retention.go:248-262 | the newest backup survives the cap exactly when it fits alone |
| PgpArchive.ParseInvertsPrint | src/pgp/store.go:166-190 | the name parser of the pruning inverts the name printer of the archive, for every fingerprint and every int64 expiry |
| PgpArchive.NameIsInjective | src/pgp/store.go:115-116 | printed names identify fingerprint and expiry |
| PgpArchive.PruneArchivedKeypairs | src/pgp/store.go:166-196 | removes exactly the computed pairs, and nothing else when a removal fails |
| PgpArchive.PruneIsExact | src/pgp/store.go:166-196 | in a directory of archived pairs exactly the expired pairs go: a private file stays while the time is not past its expiry |
| PgpArchive.ReencryptArchived | src/pgp/store.go:226-257 | succeeds exactly when every private file opens under the old secret, and then all are sealed with the new one; otherwise exactly the files before the first that does not open, in name order, are sealed with the new one |
| PgpArchive.RunIsSound | src/pgp/store.go:94-257 | over every run each private file opens, under the secret in force, to the key it is named after |
| PgpArchive.RetiredKeyLoadsThroughGrace | src/main.go:2733-2778 | over every run of completed key and secret rotations, a key rotated out at `t` loads by fingerprint under the current secret at every time up to 30 days after `t` |
| PgpArchive.FiledIsRetired | src/main.go:2733-2778 | every archived private key was rotated out exactly 30 days before the expiry in its name |
| PgpArchive.RetiredKeyGoneAfterGrace | src/main.go:2733-2778 | over every run, a key retired only more than 30 days before the latest pruning rotation can no longer be loaded |
| PgpArchive.BothKindsRotate | src/main.go:2733-2778 | fingerprints of 40 and of 64 hexadecimal digits both rotate and retire |
| Quoting.ShellJoin | src/privilege_unix.go:246-252 | the loop quotes every argument and joins them with blanks |
| Quoting.ShellReadsBack | src/privilege_unix.go:246-252 | a POSIX shell splits the joined line into exactly the arguments, for every list, with no expansion or operator |
| Quoting.OsaReadsBack | src/privilege_unix.go:255-257 | a quoted string is one AppleScript literal with the original as its value |
| Quoting.OsaShellReadsBack | src/privilege_unix.go:234-236 | the command osascript hands to the shell splits into the original arguments |
| Quoting.CefReadsBack | src/log/format.go:123-135 | a CEF reader finds every header field, the severity and the extension intact |
| Template.RenderLoop | src/email/email.go:473-482 | the loop over the variables in some order |
| Template.PrintParse | src/email/email.go:473-482 | every string with flat, matched braces is a sequence of text and holes |
| Template.ReplaceIsFill | src/email/email.go:473-482 | replacing one placeholder fills exactly the holes of that name |
| Template.RenderIsConfluent | src/email/email.go:473-482 | with flat braces in template and values, and no value holding the placeholder of another variable that stands for something else, every order gives the simultaneous substitution |
| Template.OrdersAgreeIffSettled | src/email/email.go:473-537 | over all flat templates, every two orders agree if and only if no value holds the placeholder of another variable that stands for something else |
| Template.OrderShows | src/email/email.go:526-537 | otherwise the template that is just the one placeholder tells two orders apart |
| Template.BraceFreeIsSettled | src/email/email.go:473-482 | values without braces always meet that condition |
| Ulid.NewUlid | src/log/ulid.go:14-55 | filling the two buffers gives the identifier of the sixteen bytes |
| Ulid.FivePacks | src/log/ulid.go:30-54 | five bytes and the eight digits packed from them are the same number |
| Ulid.DigitsAreExpansion | src/log/ulid.go:28-54 | the 26 digits are the base-32 expansion of the 128-bit big-endian value |
| Ulid.LexicalIsNumeric | src/log/ulid.go:14-55 | lexical order of identifiers is numeric order of the values |
| Ulid.EncodingIsInjective | src/log/ulid.go:14-55 | different bytes give different identifiers |
| Ulid.EarlierSortsFirst | src/log/ulid.go:14-55 | an identifier from an earlier millisecond sorts first, whatever the random parts |

## Left out

- HTTP handlers, routing, GraphQL schema, SMTP, keyservers, GeoIP, blocklists, Tor and I2P, CLI, TUI and i18n: input and output or single-branch lookups.
- Cryptography: encryption is a sealed value that opens under the secret it was sealed with, and hashing is the sequence of bytes fed to the hash.
- gzip and tar byte formats, file modes and ownership: an archive is a sequence of named entries, and paths are sequences of names.
- Symbolic links in intermediate components of an extraction path: the destination is a fresh directory.
- yamlFieldName's tag parsing and YAML load and save: the schema carries field names and tags already parsed.
- Aliasing of maps and lists that reflection copies by reference in the preserve walks: trees are values.
- Races between the configuration watcher and other writers of the file.
- parseRotate, parseKeep, parseSize and parseByteSize: the parsed policy is an input.
- Time zones and daylight saving: a clock reading carries its calendar fields, and runs assume that it is not turned back.
- A compression that fails half-way and leaves both archive files behind, and partial writes of a log line.
- Redis and memcache backends, the audit and access line formats other than CEF, and `formatByteSize`: thin or purely presentational.
- The 64-bit wrap of the eviction counter.
- ConfigManager.LastCallIsPublishedIff: trees are values, so that a handler which keeps the pointer it was given sees the rollback change it in place is not modelled.
- Quoting.CefReadsBack: severities are not negative, because the callers pass a constant.
- Template.OrdersAgreeIffSettled: keys hold no braces, and braces in values are matched and not nested, because the callers' keys are identifiers and other braces can join up across values.
- RestoreRun.RestoreGivesBackIff: no directory lies in another, the database inside the data directory aside; of the layouts with a directory inside the config directory only the two that the program builds are covered, in `RestoreBundle`. Names are distinct as far as the archive needs it, since other layouts fail the verification of the backup. A neighbour that happens to be named like a destination with ".restore-old" appended is not modelled.
- A directory at the destination of a restore that is reached through a symbolic link: a copy into it is a conflict in the model. A link to a file is written through.
