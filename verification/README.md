# A model of minicontainer's stateful core

The Dafny modules here model the parts of minicontainer whose correctness hangs
on order, failure and interleaving, and prove what they promise for every input,
every run and every point at which a process may stop.

| files | what they model |
|---|---|
| `Tree`, `DeferredLinks`, `StagingNames`, `LayerStream`, `Whiteouts`, `WhiteoutsExact`, `LayerEntries`, `RootlessLinks`, `LayerExtractor` | extracting an image layer: hard links that wait for their source, whiteouts, deferred directory metadata |
| `RootWalk`, `RootWalkLaws` | resolving a container path inside a root, with symlinks |
| `EventCodec`, `EventLog`, `EventLogSafety`, `EventLogLaws`, `EventLogWriter` | the rotating event log and its repair after a stop at any byte |
| `EventStream`, `EventStreamLaws`, `EventFollow`, `EventFollowOrder`, `EventFollowReturns`, `EventFollowRuns` | reading the log, and following it across rotations |
| `LifecycleStaging` | staging of start and die events |
| `HostRegistry`, `HostRegistryEffects`, `HostRegistryStore` | the DNS registry shared by registrars, readers and cleaners |
| `GenerationStore`, `Finalization`, `FinalizationHost`, `FinalizationLeftovers`, `FinalizationAlone`, `FinalizationProgram`, `FinalizationRetries`, `CgroupNames` | recording the stop of a process generation and removing from the host what it owned |
| `Seccomp` | the generated syscall filter and an interpreter for it |
| `CgroupUpdate`, `CgroupPlan` | the resource update with rollback |
| `Wrappers`, `ProcessIdentity`, `WhiteSpace`, `Decimals` | shared types and text functions |

Where the program changes things in place there is a class or a method with
loops, tied by its `ensures` to a function on values; the theorems are about that
function. Concurrency is a step system: an operation under a lock is one step,
and a run is any sequence of steps. A process that stops, or an I/O error that
makes it give up, is a sequence of effects cut short.

The outside world enters as parameters: the codec of an event (the encoder refuses
what the reader would refuse, an encoded event is one line that reads back, no
proper prefix of it is complete, and a trailing newline does not change how it
decodes), the rules for host names and canonical addresses, process probes, what
a process can link and restore, and which removals the host refuses. An owner of ports and interfaces is drawn at
random by the program (`internal/network/port_owned_linux.go:20-26`); the model
takes as a condition of its theorems that no two generations draw the same one.

## What the code does differently from what one might expect

- A hard link whose target already is a name of its source's inode leaves a hidden
  staging name behind, because renaming one name of an inode onto another does
  nothing (`StagingNames.LinkPairLeavesName`; exactly when: `StagingNames.LayerLeavesExactly`).
- A request for a path is trimmed, and the parent of a leaf is trimmed again. A link
  in a directory whose name ends in white space is put elsewhere
  (`RootWalk.LeafInOtherDirectory`; exactly when: `RootWalk.LeafLandsExactly`).
- A file of exactly one byte more than a record may hold, without newline and
  incomplete, reads differently once repaired; no history of appends produces it
  (`EventStream.StreamIgnoresRepair`, `EventStream.EveryHistoryReads`).
- A follower loses records that were completed after it met the end of a file and
  before it noticed the rotation (`EventFollowRuns.FollowerMayMiss`; exactly when:
  `EventFollowOrder.MissesExactly`). Its deadline, too, may cut off durable records,
  where the comment on it promises that those are drained
  (`EventFollowRuns.DeadlineMayMiss`; exactly when: `EventFollowReturns.DeadlineMisses`).
- A follower delivers a generation again when a repair has cut off a torn end it had
  read (`EventFollowRuns.FollowerMayRepeat`; exactly when it enters one again:
  `EventFollowOrder.ChangeExactly`, `EventFollowOrder.EntersAgainExactly`). If the
  repair comes right after its last look it can even deliver an event nobody wrote
  (`EventFollowRuns.FollowerMayGlue`); neither happens while what it read stays
  (`EventFollowOrder.FollowsInOrder`).
- A follower that naps on an unterminated end puts it back in front of its reader.
  That reader is exhausted at the next end of file, after which the follower delivers
  nothing more from the generation (`EventFollowRuns.FollowerGoesDeaf`,
  `EventFollowOrder.StaysDeaf`; not without such a nap:
  `EventFollowOrder.HearsWithoutTornNaps`).
- A follower that found no successor skips generations, without a gap error, when
  more than one is created before it looks again (`EventFollowRuns.FollowerMaySkip`;
  exactly when: `EventFollowOrder.SkipsExactly`).
- A follower that meets an unreadable record in a generation already rotated away
  goes on to the next generation without reporting it
  (`EventFollowRuns.MalformedPassedOver`; exactly when: `EventFollowOrder.MalformedExactly`).
- A process that cannot link by descriptor takes a symlink that is there for a source
  that is missing (`RootlessLinks.SymlinkLinkFails`; exactly when:
  `RootlessLinks.EntryExactly`, `RootlessLinks.StreamExactly`).
- More than one finalizer of a generation can be told that it made the change: the
  store also says so when it adds a missing exit code (`Finalization.StoppedTwice`).
- An opaque whiteout deletes entries of its own layer that came before it
  (`Whiteouts.StreamHidesOwnEntry`; exactly when that matters:
  `WhiteoutsExact.TwoPhaseExactly`). A whiteout named `.wh.`, `.wh..` or `.wh...`
  names its own directory, that directory again, or the directory above
  (`LayerStream.WhiteoutNames`).
- A rollback writes back the trimmed old value, so white space around it is lost
  (`CgroupUpdate.RollbackLosesNewline`; exactly when: `CgroupUpdate.RolledBackRestores`).

## Model

| member | source | states |
|---|---|---|
| `DeferredLinks.ResolveCharacterised` | internal/image/deferred_hardlink.go:85-106 | the retry loop succeeds if and only if a condition on the tree and the set of waiting links holds; it then links exactly the targets whose source chain reaches an inode, each to the inode at the end of its chain, and keeps the others |
| `DeferredLinks.ResolveConfluent` | internal/image/deferred_hardlink.go:85-106 | two orders of the same queue succeed or fail together, and give the same tree and the same waiting links |
| `StagingNames.ResolveLeavesExactly` | internal/image/hardlink_secure_linux.go:143-183 | the retry loop leaves its staging name beside exactly those targets that already held the inode at the end of their source chain, in whatever order it runs |
| `StagingNames.EntryLeavesExactly` | internal/image/deferred_hardlink.go:119-137 | one archive entry leaves a name exactly for such targets of its own or of the links it releases |
| `StagingNames.LayerLeavesExactly` | internal/image/hardlink_secure_linux.go:166-180 | a layer leaves a name beside a target if and only if some entry does so and no later whiteout takes the directory away or empties it |
| `StagingNames.LayerLeavesNone` | internal/image/hardlink_secure_linux.go:166-180 | a layer leaves none if and only if none of its entries does so for good |
| `StagingNames.FreshTargetsLeaveNone` | internal/image/deferred_hardlink.go:119-137 | it is enough that no hard link is named like a leaf the tree has or like an earlier entry of the layer |
| `StagingNames.LinkPairLeavesName` | internal/image/hardlink_secure_linux.go:166-180 | a concrete layer, two links to each other with one of them already there, that leaves a name |
| `LayerStream.ResolveLeavesMissing` | internal/image/deferred_hardlink.go:85-104 | a link the loop keeps has a source that is simply absent |
| `LayerStream.ResolveIdle` | internal/image/deferred_hardlink.go:101-104 | when all sources are absent the loop changes neither tree nor queue |
| `LayerStream.CreateNodeKeeps` | internal/image/image.go:91-117 | a created entry keeps the tree a tree, never replaces a directory, and adds only itself and its missing parents |
| `LayerStream.EntryMakesReady` | internal/image/deferred_hardlink.go:119-136 | cancelling before an entry leaves a queue that satisfies the assumption of the confluence theorem in the tree the entry produced |
| `LayerStream.ApplyEntryKeeps` | internal/image/deferred_hardlink.go:119-137 | for a process that links by descriptor: after any entry handled without error all waiting sources are absent and no later target equals or is above an earlier one (for others: RootlessLinks.EntryExactly) |
| `RootlessLinks.AttemptExactly` | internal/image/hardlink_secure_linux.go:185-209 | an attempt by a process that cannot link by descriptor goes differently if and only if all is well but that its source is a symlink, which then seems missing or is forbidden |
| `RootlessLinks.EntryExactly` | internal/image/deferred_hardlink.go:119-137 | an entry handled by any process leaves all waiting sources absent if and only if the process can link by descriptor or the entry neither links to a symlink nor is one that a waiting link names; in that case it does what it does natively |
| `RootlessLinks.StreamExactly` | internal/image/oci.go:189-245 | so over any archive, at all times |
| `RootlessLinks.LayerAsNative` | internal/image/oci.go:185-253 | a layer without such entries has the same result for every process |
| `RootlessLinks.SymlinkLinkFails` | internal/image/hardlink_secure_linux.go:185-208 | a concrete layer, a symlink and a hard link to it, that fails for want of a source that is there |
| `LayerStream.UnshadowedAt` | internal/image/deferred_hardlink.go:69-75 | the queue order by position: a later waiting target neither equals nor contains an earlier one |
| `LayerStream.StepKeepsInv` | internal/image/oci.go:198-244 | every stream step keeps the tree a tree, the queue invariant, and every recorded directory a directory |
| `LayerStream.StreamKeepsInv` | internal/image/oci.go:189-245 | the same over any archive |
| `LayerStream.FinishOfStream` | internal/image/oci.go:246-251 | when a layer succeeds no link waits any more and every recorded directory is found as a directory by the metadata pass |
| `LayerStream.FinishKeepsDirs` | internal/image/oci.go:246-251 | whatever the process can link, the metadata pass after a layer that applies finds every recorded directory |
| `LayerStream.WhiteoutNames` | internal/image/oci.go:214-219 | a whiteout names the entry beside it if and only if a proper name follows the prefix; otherwise it names its own directory or the one above |
| `LayerStream.WhiteoutOfDirectory` | internal/image/oci.go:214-219 | two concrete whiteouts in a directory that name the directory and the root |
| `LayerEntries.ObjectMakes` | internal/image/oci.go:228-232 | one more file, device or symlink entry after a layer that applies: refused exactly when, and otherwise its inode is at its whole name, missing directories are made above it, and nothing else changes |
| `LayerEntries.DirectoryMakes` | internal/image/oci.go:228-243 | one more directory entry: refused exactly when, and otherwise a directory at its whole name, recorded for the metadata pass, nothing else changed |
| `LayerEntries.LinkMakes` | internal/image/hardlink_secure_linux.go:114-130 | one more hard-link entry: it succeeds if and only if the source is there, the target can be replaced, and mode, owner and, if given, time are the inode's; then both names have one inode and nothing else changes |
| `LayerEntries.RefusedEntry` | internal/image/image.go:96-116 | an unsafe name, a refused link name or an unsupported type makes the layer fail |
| `LayerEntries.OpaqueClears` | internal/image/oci.go:201-212 | an opaque whiteout removes exactly what is strictly below its directory, from the tree and from the records |
| `LayerEntries.WhiteoutRemoves` | internal/image/oci.go:214-226 | another whiteout fails exactly if a file is in its way, and otherwise removes exactly what it names and what is below |
| `LayerEntries.UnsafeFails` | internal/image/oci.go:201-231 | one unsafe name anywhere makes any layer fail |
| `LayerEntries.LastEntryStands` | internal/image/deferred_hardlink.go:119-137 | whatever came before and whatever links were waiting, what the last entry makes is there when the layer has been applied |
| `LayerEntries.WaitsUntilShadowed` | internal/image/deferred_hardlink.go:40-75 | a waiting link is given up if and only if an entry or whiteout takes its place; any other waits until there is a file at its target |
| `LayerEntries.LayerTouches` | internal/image/oci.go:185-253 | over any entries and for any process: what is new or different afterwards is named by an entry or above one that is, and what is gone is covered by a whiteout |
| `Whiteouts.StreamTwoPhase` | internal/image/oci.go:189-245 | deleting all whiteout sets first and then streaming the other entries reaches the same tree, queue and records |
| `Whiteouts.StreamRefinesTwoPhase` | internal/image/oci.go:185-253 | a layer that succeeds and whose entries name no path a later whiteout removes means the two-phase reading of the section "Whiteouts" of the OCI Image Format Specification's "Image Layer Filesystem Changeset" |
| `Whiteouts.StreamHidesOwnEntry` | internal/image/oci.go:201-212 | without that condition the readings differ: a concrete layer whose opaque whiteout deletes the layer's own entry |
| `WhiteoutsExact.TwoPhaseExactly` | internal/image/oci.go:185-253 | for a layer without hard links that applies: both readings give the same tree and record the same directories if and only if every entry fits on what earlier ones made and everything erased later is made again after the last whiteout that erases it |
| `WhiteoutsExact.StreamAt` | internal/image/oci.go:198-244 | the node at each path after such a stream: the last action that concerns the path decides |
| `WhiteoutsExact.RestSucceeds` | internal/image/oci.go:198-244 | the entries alone apply to the cleaned tree if and only if each fits on what earlier ones made |
| `Whiteouts.RecordedDirs` | internal/image/oci.go:255-267 | a directory is recorded for the metadata pass if and only if some directory entry named it and no later whiteout removed it |
| `LayerExtractor.RootFS.OpenParent` | internal/image/extraction_parent_linux.go:51-107 | the walk to a parent: each of its four results exactly when, and the parents it creates |
| `LayerExtractor.RootFS.CreateHardlink` | internal/image/hardlink_secure_linux.go:33-108 | one link attempt in place equals the attempt the theorems are about, with the staging name it leaves behind and with the parents made for a source that only seems missing |
| `LayerExtractor.RootFS.CreateEntry` | internal/image/image.go:91-117 | directories, files, symlinks and special nodes: refused exactly when, and the resulting tree |
| `LayerExtractor.RootFS.RemoveWhiteout` | internal/image/whiteout_secure_linux.go:18-41 | the target and all below it go; only a missing parent is tolerated |
| `LayerExtractor.RootFS.ClearOpaque` | internal/image/whiteout_secure_linux.go:47-70 | exactly what is strictly below the directory goes |
| `LayerExtractor.DeferredHardlinks.CancelTarget` | internal/image/deferred_hardlink.go:40-48 | the loop keeps, in order, the links with another target |
| `LayerExtractor.DeferredHardlinks.CancelSubtree` | internal/image/deferred_hardlink.go:50-63 | the loop keeps, in order, the links outside the subtree |
| `LayerExtractor.DeferredHardlinks.CancelForEntry` | internal/image/deferred_hardlink.go:69-75 | directories cancel their own target only, everything else its subtree |
| `LayerExtractor.DeferredHardlinks.Add` | internal/image/deferred_hardlink.go:77-83 | the link is queued last |
| `LayerExtractor.DeferredHardlinks.ResolveAvailable` | internal/image/deferred_hardlink.go:85-106 | the nested loops terminate and equal the fixpoint function on tree and queue, and the staging names left are the ones described |
| `LayerExtractor.DeferredHardlinks.Finish` | internal/image/deferred_hardlink.go:108-117 | succeeds exactly when nothing is left waiting |
| `LayerExtractor.DeferredHardlinks.ApplyTarEntry` | internal/image/deferred_hardlink.go:119-137 | cancel, create or queue, then retry, as the stream function says |
| `LayerExtractor.CancelDirectoryMetadata` | internal/image/oci.go:255-267 | the loop keeps exactly the records outside the removed set, in order |
| `LayerExtractor.FinalizeDirectoryMetadata` | internal/image/directory_metadata_linux.go:12-36 | succeeds exactly when every record is still found as a directory and its metadata can be restored |
| `LayerExtractor.ApplyAction` | internal/image/oci.go:198-244 | one turn of the archive loop equals one stream step |
| `LayerExtractor.ApplyLayerReader` | internal/image/oci.go:185-253 | the whole loop equals the stream function, staging names included; it fails further only for an archive that cannot be read to its end or metadata that cannot be restored |
| `RootWalk.FollowComposes` | internal/builder/paths.go:81-122 | the recursive walk over a concatenation of components is the walk over the first part continued with the second |
| `RootWalk.FollowExact` | internal/builder/paths.go:109-112 | the bounded walk ends at a path if and only if the unlimited one does after at most the limit of links, and fails with too many links if and only if the unlimited one follows more |
| `RootWalk.FollowSettles` | internal/builder/paths.go:81-122 | a successful walk passes no symlink and no file, and yields no dot component |
| `RootWalk.ResolutionIsFixed` | internal/builder/paths.go:124-136 | walking the components of a result again yields the result and follows no link |
| `RootWalk.SplitLogicalComponents` | internal/builder/paths.go:56-66 | the loop equals the splitting function that `RootWalk.SplitKeepsNames` is about |
| `RootWalk.SplitKeepsNames` | internal/builder/paths.go:60-64 | the result is what stands, in order, at exactly the places whose part is neither empty nor "."; ".." is kept |
| `RootWalkLaws.WalksTarget` | internal/builder/paths.go:110-121 | a link's target is walked as it is written, from the root or from the link's directory, at the cost of one link; beyond the limit it is an error |
| `RootWalkLaws.WalksUp` | internal/builder/paths.go:88-92 | ".." goes up one component and stays at the root |
| `RootWalkLaws.WalksDown` | internal/builder/paths.go:94-108 | a name that is no link is gone down, whether it exists or not |
| `RootWalkLaws.WalksIntoFile` | internal/builder/paths.go:97-103 | a name below a file is an error |
| `RootWalkLaws.WalksLexically` | internal/builder/paths.go:81-122 | without links and files a walk is lexical cleaning |
| `RootWalkLaws.CleansLast` | internal/builder/paths.go:22-35 | what each further component does to a cleaned path |
| `RootWalkLaws.RequestTrimmed` | internal/builder/paths.go:14-14 | white space in front of a request and behind it makes no difference |
| `RootWalkLaws.RequestRead` | internal/builder/paths.go:13-35 | otherwise a request is read from the root part by part, and only a blank one is refused |
| `RootWalkLaws.ResolutionLimit` | internal/builder/paths.go:110-113 | resolution gives up if and only if the unlimited walk follows 256 links |
| `RootWalkLaws.LinkGoesUp` | internal/builder/paths.go:88-121 | a concrete link to "../b" leads to the directory beside its own |
| `RootWalk.NormalizeDir` | internal/builder/paths.go:13-35 | the normal form of a clean absolute path is known, and is the path itself if and only if its last component does not end in white space |
| `RootWalk.ResolveRootFSPath` | internal/builder/paths.go:68-137 | the request is trimmed and normalised; the worklist loop terminates by links left and queue length, equals the recursive walk, and never reaches its escape check |
| `RootWalk.ResolveRootFSLeaf` | internal/builder/paths.go:139-152 | the parent is trimmed once more and resolved, and the last component is not followed; the root is refused |
| `RootWalk.LeafLandsExactly` | internal/builder/paths.go:139-152 | a leaf lands in the directory its logical parent resolves to, whatever the file system holds, if and only if that parent does not end in white space |
| `RootWalk.LeafLandsOnPlainPaths` | internal/builder/paths.go:139-152 | in one file system with no link on the way it misses that directory exactly when the parent ends in white space |
| `RootWalk.LeafInOtherDirectory` | internal/builder/paths.go:13-14 | a concrete link in a directory whose name ends in a space that is put into the directory named without it |
| `Seccomp.RunChecks` | internal/container/seccomp_linux.go:52-59 | from any check on, the program decides membership in the rest of the list |
| `Seccomp.FilterDecides` | internal/container/seccomp_linux.go:41-60 | an interpreter of the kernel's opcodes returns the kernel's kill verdict exactly for a foreign architecture or a listed number, and its allow verdict otherwise |
| `Seccomp.FilterWellFormed` | internal/container/seccomp_linux.go:41-60 | all jumps and loads stay in bounds and the program ends in a return |
| `Seccomp.BuildFilter` | internal/container/seccomp_linux.go:41-60 | for every block list the generated program has these properties |
| `CgroupUpdate.PlannedResourceUpdates` | internal/cgroups/update_transaction_linux.go:29-57 | the plan lists the positive settings in order with their file names and values |
| `CgroupUpdate.PlanDistinct` | internal/cgroups/update_transaction_linux.go:29-57 | no file is planned twice |
| `CgroupPlan.PlannedSettings` | internal/cgroups/update_transaction_linux.go:29-57 | a setting is planned exactly if it is positive, for the file of its name: numbers for memory, weight and PIDs, and for CPUs the whole microseconds in every 100000 |
| `CgroupPlan.PlannedInOrder` | internal/cgroups/update_transaction_linux.go:29-57 | only these four files are written, in one order |
| `CgroupPlan.RefusedSettings` | internal/cgroups/validate.go:43-58 | which settings make an update be refused |
| `CgroupPlan.SavedExactly` | internal/cgroups/update_transaction_linux.go:77-92 | saving succeeds exactly if every planned file can be read and is not blank; otherwise the first that is not is named with the reason |
| `CgroupPlan.UndoneBackwards` | internal/cgroups/update_transaction_linux.go:98-107 | the rollback writes go from the failed file back to the first, each with its saved value |
| `CgroupUpdate.SaveCurrent` | internal/cgroups/update_transaction_linux.go:77-92 | the trimmed old values, or the first unreadable or empty file |
| `CgroupUpdate.ApplyResourceUpdate` | internal/cgroups/update_transaction_linux.go:59-118 | nothing is written before everything is read; success sets every planned file; a failed write at any index, whatever it left, is followed by a rollback write to every touched file and to no other |
| `CgroupUpdate.WriteAll` | internal/cgroups/update_transaction_linux.go:94-110 | the write loop: all written, or stopped at the first failure and rolled back, with the exact order of writes |
| `CgroupUpdate.WriteOne` | internal/cgroups/update_transaction_linux.go:94-96 | one write, whatever it leaves behind on failure, touches its own file only |
| `CgroupUpdate.RollBack` | internal/cgroups/update_transaction_linux.go:97-108 | every touched file whose rollback write succeeds holds its saved value; all rollbacks are tried, and the failed ones reported |
| `CgroupUpdate.RollBackOne` | internal/cgroups/update_transaction_linux.go:98-107 | one rollback write and what stays untouched by it |
| `CgroupUpdate.RolledBackRestores` | internal/cgroups/update_transaction_linux.go:84-108 | a file whose rollback write did not fail has its old contents up to surrounding white space, and exactly them if and only if no update touched it or there was no white space around them |
| `CgroupUpdate.RollbackLosesNewline` | internal/cgroups/update_transaction_linux.go:84-91 | a concrete file ending in a newline that a successful rollback writes back without it |
| `LifecycleStaging.StepKeepsInv` | internal/events/lifecycle_staging.go:23-121 | each operation, however its append fails, keeps staged and committed apart and a committed start newer than any die |
| `LifecycleStaging.EveryRun` | internal/events/lifecycle_staging.go:82-121 | over any sequence of operations and append failures: nothing is staged and committed at once, dies never outnumber starts, and a start lies between any two dies of a container |
| `LifecycleStaging.PhaseStep` | internal/events/lifecycle_staging.go:23-121 | each container goes from idle to staged to committed and back on its own; only a commit looks at the others |
| `LifecycleStaging.StagingSucceeds` | internal/events/lifecycle_staging.go:23-68 | staging succeeds exactly for an idle container, or at a runtime for the same staged start again |
| `LifecycleStaging.CommitPublishes` | internal/events/lifecycle_staging.go:90-108 | a commit succeeds exactly if its append does, and the log then ends with the staged start, image and message included; otherwise it stays staged |
| `LifecycleStaging.CommitNeedsOne` | internal/events/lifecycle_staging.go:86-91 | with nothing staged a commit does nothing, with several it is refused |
| `LifecycleStaging.DieCloses` | internal/events/events.go:111-127 | a die against a committed start closes it, and succeeds exactly if the log then ends with its record |
| `LifecycleStaging.FailureKeepsStaged` | internal/events/lifecycle_staging.go:23-110 | what is refused or fails keeps every staged start |
| `LifecycleStaging.StartsAccounted` | internal/events/lifecycle_staging.go:82-121 | over any run: the starts on record are those open, those matched by a die, and those a failing append left over |
| `LifecycleStaging.EveryDieLogged` | internal/events/events.go:90-127 | without failing appends the dies of a container and its open start are as many as its starts |
| `LifecycleStaging.Staging.StageStartEvent` | internal/events/lifecycle_staging.go:23-40 | staged once, refused while staged or committed |
| `LifecycleStaging.Staging.StageRuntime` | internal/events/lifecycle_staging.go:46-68 | an equal stage is accepted, a different one or a committed start refused |
| `LifecycleStaging.Staging.Cancel` | internal/events/lifecycle_staging.go:73-77 | only the uncommitted attempt is dropped |
| `LifecycleStaging.Staging.Commit` | internal/events/lifecycle_staging.go:83-110 | the single staged start is logged and committed, or kept staged if the append fails |
| `LifecycleStaging.Staging.Die` | internal/events/events.go:111-127 | a die is logged only against a committed start, which is used up even if the append fails |
| `EventCodec.TornFacts` | internal/events/eventlog_linux.go:160-171 | what a cut-off write leaves is complete exactly when the whole record got there |
| `EventCodec.ReadLine` | internal/events/record_reader.go:25-39 | a line within the limit is read back whole with the rest of the log behind it |
| `EventLog.RepairIdempotent` | internal/events/eventlog_linux.go:121-179 | any file that could be repaired needs no second repair |
| `EventLog.RepairOfTorn` | internal/events/eventlog_linux.go:133-171 | behind whole lines the repair truncates an incomplete tail to its start, terminates a readable one and refuses an unreadable one |
| `EventLogLaws.RepairExactly` | internal/events/eventlog_linux.go:121-179 | what a repair does to any file: an end over the limit or complete but of the wrong schema is refused, an incomplete one cut off, a whole record terminated |
| `EventLog.AppendAtomic` | internal/events/eventlog_linux.go:121-179 | an append of an encoded event cut off at any byte is completed or undone by the next repair, by whether all of the record was written |
| `EventLogSafety.StepKeepsInv` | internal/events/eventlog_linux.go:216-327 | one append stopped after any number of its effects keeps the invariant, and commits its record exactly from its last byte on |
| `EventLogSafety.EveryHistory` | internal/events/eventlog_linux.go:216-273 | in every history of stopped appends the generations in the slots are consecutive, retained ones end in a newline, their concatenation is an end of the committed records, and none exceeds the two limits together |
| `EventLogSafety.EveryAppend` | internal/events/events.go:129-136 | in every history an append is refused exactly for an event the marshaller rejects or a record over the limit; neither the oversized nor the unreadable tail of the repair can occur |
| `EventLogSafety.RepairAlwaysPossible` | internal/events/eventlog_linux.go:150-163 | the repair never refuses a file that a history of stopped appends can leave |
| `EventLogSafety.AppendCompletes` | internal/events/events.go:129-151 | an append that is not stopped commits its record and leaves it, terminated, at the end of the active file |
| `EventLogLaws.AppendEffect` | internal/events/eventlog_linux.go:181-327 | an append that is not stopped adds its line to the log as repaired, in a new file exactly once the repaired one has 16 MiB, the older ones moved on, and changes nothing else |
| `EventLogLaws.RetentionDepth` | internal/events/eventlog_linux.go:181-273 | in every history the newest two generations are on disk, and without a stopped append the newest three |
| `EventLogWriter.InspectTail` | internal/events/eventlog_linux.go:129-171 | which of the four findings a file's end calls for |
| `EventLogWriter.Writer.RepairTail` | internal/events/eventlog_linux.go:121-179 | the repair as the program does it equals the planned effect, or is refused without effect |
| `EventLogWriter.Writer.RotateRetained` | internal/events/eventlog_linux.go:181-214 | `.1` moves to `.2` if it exists |
| `EventLogWriter.Writer.Rotate` | internal/events/eventlog_linux.go:245-257 | both renames, the retained one first, stopped wherever the budget ends |
| `EventLogWriter.Writer.RotateIfNeeded` | internal/events/eventlog_linux.go:216-273 | repair, then rotation only at the size limit; nothing for an absent file |
| `EventLogWriter.Writer.OpenForAppend` | internal/events/eventlog_linux.go:275-327 | rotation and then creation, as planned |
| `EventLogWriter.Writer.WriteAll` | internal/events/events.go:144-146 | the bytes are appended one by one up to where the process stops |
| `EventLogWriter.Writer.Append` | internal/events/events.go:129-151 | the append refuses an invalid event before it opens the log, and otherwise performs exactly as much of its plan as its budget allows |
| `EventStream.EventMatchesQuery` | internal/events/events.go:191-210 | prefix, inclusive time bounds, and any of the listed types |
| `EventStream.StreamRecord` | internal/events/events.go:291-307 | an undecodable record is forgiven only if it is the incomplete end of the file |
| `EventStream.StreamEventLog` | internal/events/events.go:284-319 | the read loop equals the recursive reading of the file |
| `EventStream.StreamHistoricalEventLogs` | internal/events/events.go:346-366 | files oldest first, stopping at the first error |
| `EventStream.StreamIgnoresRepair` | internal/events/events.go:284-319 | repairing any file leaves what is read from it unchanged, except exactly for a file of one byte over the record limit without newline and incomplete |
| `EventStream.EveryHistoryReads` | internal/events/events.go:284-319 | in every history the unrepaired and the repaired log read the same, without error, namely an end of the committed records through the filter |
| `EventStream.ReadableRecords` | internal/events/events.go:297-307 | if every record reads back there is no error and exactly the matching events are emitted |
| `EventStreamLaws.SelectedExactly` | internal/events/events.go:191-210 | an event is selected exactly if the prefix, both inclusive bounds and the type list allow it, as far as they are set |
| `EventStreamLaws.BadLineStops` | internal/events/events.go:288-301 | a line that does not decode is an error, behind what was emitted before it |
| `EventStreamLaws.LongLineStops` | internal/events/record_reader.go:25-39 | so is a record over the limit |
| `EventStreamLaws.GoodLineAdds` | internal/events/events.go:288-306 | a line that decodes adds its event if it is selected |
| `EventStreamLaws.EndRead` | internal/events/events.go:293-301 | an unterminated end is read if it is a record, an error if complete and none, and otherwise passed over |
| `EventFollowOrder.InspectExact` | internal/events/event_follow_rotation.go:244-289 | while what was read of a file stays in it the size, anchor and checkpoint checks never fire: a boundary is seen exactly when the path names another file or none |
| `EventFollow.SuccessorsConsecutive` | internal/events/event_follow_startup_linux.go:150-176 | the successors of a generation that is not active are the ages right after it up to the newest |
| `EventFollowOrder.FollowsInOrder` | internal/events/event_follow_handoff.go:20-60 | in every interleaving in which no repair takes away bytes the follower had read: the ages visited are consecutive and none comes twice, save after a wait, and the events emitted are those of the delivered parts, in order and once |
| `EventFollowOrder.MissesExactly` | internal/events/event_follow_rotation.go:185-228 | in such an interleaving a generation is left with a complete line not delivered if and only if its next line could not be decoded or a line was completed behind the point up to which it had been read; with the successor already held only the former can be |
| `EventFollowOrder.NotMissedIsAll` | internal/events/event_follow_rotation.go:154-184 | a generation left with no line missed was delivered up to its last newline, and only such a one was |
| `EventFollowOrder.ChangeExactly` | internal/events/event_follow_rotation.go:244-289 | a step stands at a boundary of the file still named by the path if and only if an inspection found the file shorter than what was read of it, or different at its start or at the checkpoint; at any other boundary exactly if the path named another file or none |
| `EventFollowOrder.EntersAgainExactly` | internal/events/event_follow_startup_linux.go:162-169 | in every interleaving a generation is entered once more if and only if it was left for such a change and the path still names it when the successor is looked up |
| `EventFollowOrder.EveryRunAges` | internal/events/event_follow_handoff.go:20-60 | in every interleaving, repairs included, the ages visited follow each other by the way each generation was left: the next one, itself again, or whatever became active |
| `EventFollowOrder.SkipsExactly` | internal/events/event_follow_rotation.go:119-143 | a follower that had to wait for an active file goes on as many generations further as were created meanwhile, so it skips one if and only if there was more than one |
| `EventFollowOrder.StaysDeaf` | internal/events/event_follow_rotation.go:206-211 | once the reader put in front of the file is exhausted, nothing appended to the active file is delivered, however much and however often the follower looks |
| `EventFollowOrder.HearsWithoutTornNaps` | internal/events/event_follow_rotation.go:206-211 | that does not happen in a run in which the follower never naps on an unterminated end |
| `EventFollowOrder.DeliveredIsRead` | internal/events/event_follow_rotation.go:154-177 | the events emitted from a generation are those a plain reading of its delivered part yields, and that reading meets no error |
| `EventFollowOrder.GapExactly` | internal/events/event_follow_startup_linux.go:146-160 | a gap is reported exactly when no successor is held and the generation has left the retention window |
| `EventFollowRuns.FollowerMayMiss` | internal/events/event_follow_rotation.go:216-228 | a concrete run in which a committed record is never delivered |
| `EventFollowRuns.FollowerMayRepeat` | internal/events/eventlog_linux.go:169-171 | a concrete run with a repair in which an event is delivered twice |
| `EventFollowRuns.FollowerMayGlue` | internal/events/event_follow_rotation.go:154-184 | a concrete run in which a torn end and the end of the record that replaced it are delivered as one event that is nowhere in the log |
| `EventFollowRuns.FollowerGoesDeaf` | internal/events/event_follow_rotation.go:206-211 | a run to that state: a torn end that is still unterminated after a nap |
| `EventFollowRuns.FollowerMaySkip` | internal/events/event_follow_rotation.go:119-143 | a concrete run in which a whole generation is skipped without a gap error |
| `EventFollowOrder.MalformedExactly` | internal/events/event_follow_rotation.go:159-174 | a terminated record that does not decode ends the generation without an error if and only if the active path no longer names its file, and fails the follower otherwise |
| `EventFollowRuns.MalformedPassedOver` | internal/events/event_follow_rotation.go:159-174 | a retained file that starts with such a record: the follower goes on to the next generation and reports nothing |
| `EventFollow.SnapshotGenerations` | internal/events/event_follow_startup_linux.go:121-144 | the loop over the three paths collects the present generations oldest first |
| `EventFollow.OpenSuccessors` | internal/events/event_follow_startup_linux.go:101-177 | snapshot, search and slice equal the successor function, with its gap errors |
| `EventFollow.Attachment.InspectGeneration` | internal/events/event_follow_rotation.go:244-289 | the checks in order, and the anchor filled in once |
| `EventFollow.Attachment.ReadNext` | internal/events/event_follow_rotation.go:154-184 | one record delivered, the end reached, or a bad record rechecked against the path |
| `EventFollow.Attachment.AfterEof` | internal/events/event_follow_rotation.go:185-204 | boundary first, then the deadline, then a checkpoint |
| `EventFollow.Attachment.AfterNap` | internal/events/event_follow_rotation.go:218-228 | a rotation seen after the nap ends the generation without another read |
| `EventFollow.Attachment.HandOff` | internal/events/event_follow_handoff.go:40-58 | held successors are used up before new ones are looked up |
| `EventFollow.Attachment.Open` | internal/events/event_follow_handoff.go:56-58 | a generation is opened from its start with nothing remembered of the last one |
| `EventFollow.Attachment.Reopen` | internal/events/event_follow_rotation.go:120-143 | one turn of the outer loop: the active file, the deadline, or another wait |
| `EventFollowReturns.ReturnsExactly` | internal/events/event_follow_rotation.go:186-204 | a step ends a follower for good if and only if the deadline has passed at the end of an unchanged file or while it waits for one |
| `EventFollowReturns.RunReturnsExactly` | internal/events/event_follow_rotation.go:120-204 | and so over any run of writer and follower |
| `EventFollowReturns.DeadlineMisses` | internal/events/event_follow_rotation.go:199-204 | at its deadline a follower leaves a complete line exactly if one was completed since it read up to there; without that it has emitted every selected event of the file |
| `EventFollowRuns.DeadlineMayMiss` | internal/events/event_follow_rotation.go:199-204 | a concrete run in which a durable record is not delivered before the deadline |
| `EventFollowReturns.NapNoticesExactly` | internal/events/event_follow_rotation.go:195-231 | after a nap the follower reads on if and only if the path names the same file, not shorter than what was read, with the same bytes up to 4096 behind that point and at its start |
| `EventFollowReturns.EntersFresh` | internal/events/event_follow_handoff.go:20-60 | a generation is entered at its start with nothing else remembered, and the generations held behind it are known |
| `EventFollowReturns.Drains` | internal/events/event_follow_rotation.go:154-182 | a follower left alone with a file whose complete lines can be read gets to its end and has then emitted the selected events of all of them |
| `EventFollowReturns.LongRecordFails` | internal/events/event_follow_rotation.go:178-180 | a record over the limit ends a follower with an error |
| `HostRegistry.PrunedThins` | internal/dns/dns.go:130-148 | pruning fails exactly if a probe fails, and otherwise keeps exactly the entries in force, in order |
| `HostRegistry.RegisteredOk` | internal/dns/dns.go:263-332 | a successful registration yields a list the validator accepts and the stronger invariant |
| `HostRegistry.BoundOk` | internal/dns/generation_ownership.go:62-146 | a successful bind does too, whatever address was staged |
| `HostRegistry.StepKeepsInv` | internal/dns/dns.go:76-128 | every operation keeps IDs and host names unique, identities complete, generation-aware entries owned and bound entries announced |
| `HostRegistry.EveryRunValid` | internal/dns/dns.go:97-128 | every run that starts from the empty registry only publishes lists the validator accepts |
| `HostRegistry.RunKeepsInv` | internal/dns/dns.go:97-128 | the invariant along any run from any state that has it |
| `HostRegistry.BoundEntryKept` | internal/dns/stopped_cleanup.go:78-103 | an entry bound to a process not proven dead goes away if and only if its own registrar unregisters or re-registers it, or that very generation is cleaned up |
| `HostRegistry.EntrySurvives` | internal/dns/stopped_cleanup.go:67-104 | over any run without such an operation the entry stays as it is |
| `HostRegistry.BindPublishes` | internal/dns/generation_ownership.go:97-144 | a bind succeeds exactly when, and publishes one entry at the staged address without touching another |
| `HostRegistryEffects.BindPublishesStaged` | internal/dns/generation_ownership.go:126-144 | a bind puts the address staged for the attempt, the generation and the announcement into the container's entry, and leaves the rest of the list as it is |
| `HostRegistryEffects.RegistrationSucceeds` | internal/dns/dns.go:263-332 | a registration succeeds if and only if its input is well formed, every entry can be probed, no live entry has the container or the host name for another registration, and there is room |
| `HostRegistryEffects.RegistrationPublishes` | internal/dns/dns.go:263-290 | it publishes exactly one entry for the container, as asked for, and every other live entry stays as it is; nothing else is added |
| `HostRegistryEffects.RegisterStep` | internal/dns/dns.go:310-331 | a failed registration changes nothing |
| `HostRegistryEffects.LivesBy` | internal/dns/dns.go:130-148 | which process an entry lives by |
| `HostRegistryEffects.UnregisterRemoves` | internal/dns/unregister_owned.go:53-65 | unregistering removes exactly the registrar's own entry of the container |
| `HostRegistryEffects.CleanUpRemoves` | internal/dns/stopped_cleanup.go:78-103 | a cleanup removes exactly the stopped generation's entry and one that knows of no generation |
| `HostRegistryEffects.PruneRemoves` | internal/dns/dns.go:130-148 | pruning removes exactly what is not live, and nothing if a probe fails |
| `HostRegistryEffects.VisibleExactly` | internal/dns/dns.go:384-389 | the announced entries, in order |
| `HostRegistryEffects.StageReserves` | internal/dns/generation_ownership.go:28-46 | staging reserves the canonical address under a token never issued before |
| `HostRegistryEffects.EveryRunPublishes` | internal/dns/dns.go:97-128 | what is true of every list a run publishes, entry by entry and between entries |
| `HostRegistryEffects.ValidatorRefuses` | internal/dns/dns.go:97-128 | what the validator refuses |
| `HostRegistryEffects.CaseIgnored` | internal/dns/dns.go:117-123 | host names are compared without regard to case |
| `HostRegistry.VisibleMeansBound` | internal/dns/dns.go:384-389 | when all registrations are admissions, peers see an entry exactly when it is bound |
| `HostRegistry.ReservationKept` | internal/dns/generation_ownership.go:28-55 | a reservation goes away exactly by its own release or a newer one for the same container, and tokens only grow |
| `HostRegistryStore.ValidateEntries` | internal/dns/dns.go:97-128 | the loop with its two sets accepts exactly the valid lists |
| `HostRegistryStore.PruneStaleOwnedEntries` | internal/dns/dns.go:130-148 | the loop equals the pruning function and reports a change if there was one |
| `HostRegistryStore.EntriesWithRegistration` | internal/dns/dns.go:263-290 | the first entry with the container or the host name decides |
| `HostRegistryStore.DropStopped` | internal/dns/stopped_cleanup.go:78-103 | the exact generation's entry goes, and entries that know of no generation |
| `HostRegistryStore.DropOwned` | internal/dns/unregister_owned.go:53-65 | the loop keeps every entry but this registrar's own of the container |
| `HostRegistryStore.AnnouncedEntries` | internal/dns/dns.go:384-389 | exactly the entries not pending are listed |
| `HostRegistryStore.Store.Save` | internal/dns/dns.go:252-261 | a list is published exactly if it passes the validator and the entry limit |
| `HostRegistryStore.Store.RegisterHost` | internal/dns/dns.go:292-332 | prune, register and save equal the registry step; the validator never rejects the result |
| `HostRegistryStore.Store.BindGeneration` | internal/dns/generation_ownership.go:62-146 | the locked part of a bind equals the registry step |
| `HostRegistryStore.Store.UnregisterHostIfOwnedBy` | internal/dns/unregister_owned.go:21-71 | only this registrar's entry of the container goes |
| `HostRegistryStore.Store.CleanupStopped` | internal/dns/stopped_cleanup.go:67-104 | the cleanup of one stopped generation equals the registry step |
| `HostRegistryStore.Store.PruneAndSave` | internal/dns/dns.go:358-375 | the list is saved only if an entry was dropped, and is left alone if a probe fails |
| `HostRegistryStore.Store.GenerateHosts` | internal/dns/dns.go:346-391 | stale entries are dropped and saved, announced ones returned |
| `HostRegistryStore.Store.StageAddress` | internal/dns/generation_ownership.go:28-46 | a new reservation replaces any older one under a fresh token |
| `HostRegistryStore.Store.ReleaseAddress` | internal/dns/generation_ownership.go:48-54 | only the reservation with this token goes |
| `Finalization.StepKeepsInv` | internal/container/generation_finalize.go:21-268 | every step of every actor, failing or not, keeps what the actors have established |
| `FinalizationHost.EveryRemoval` | internal/container/generation_finalize.go:217-268 | in every interleaving, with one owner per generation and distinct cgroup names: a removal is for a generation that exited and whose stop is committed, what it found was created by that generation, and no other generation ever started may use that name; pending tokens belong to the running or the last stopped generation |
| `FinalizationHost.RunningKept` | internal/container/generation_finalize.go:35-46 | under any names no actor changes the running generation's record or tokens, except a finalizer or failed start of that generation, after its exit |
| `FinalizationHost.RunningUntouched` | internal/container/network_ownership_linux.go:97-150 | under those conditions everything the running generation created stays on the host, and no removal is of a name that it may use or that its tokens hold |
| `FinalizationHost.NeedsFreshOwners` | internal/network/port_owned_linux.go:17-26 | the first condition is needed: for any two generations with one owner, a run in which a delayed actor removes the interface of the running one |
| `FinalizationHost.NeedsDistinctNames` | internal/cgroups/identity.go:10-13 | the second is needed: for any two generations with one cgroup name, a run in which a delayed actor removes the cgroup of the running one |
| `FinalizationHost.DerivedNamesDistinct` | internal/cgroups/identity.go:14-30 | the names the program derives meet the second condition for every container |
| `FinalizationLeftovers.LeftoversNamed` | internal/container/generation_finalize.go:131-150 | in every interleaving with any failures: if generations create things only while they run and a token names them, everything on the host but DNS entries is named by a pending token of the generation that created it |
| `FinalizationLeftovers.NothingLeft` | internal/state/lifecycle.go:12-83 | so a container that may start again has nothing else left on the host |
| `FinalizationLeftovers.NeedsTokensFirst` | internal/container/runtime_cgroup_apply_linux.go:17-52 | the condition is needed: what is created after the stop stays and no token names it |
| `CgroupNames.NameIsExact` | internal/cgroups/identity.go:14-30 | a derived name belongs to one PID and start time of one container, even if container IDs hold dashes and digits |
| `CgroupNames.NameParts` | internal/cgroups/identity.go:14-30 | a derived name is the prefix, the container, and both numbers in decimal |
| `CgroupNames.NameDerivable` | internal/cgroups/validate.go:17-41 | a name can be derived exactly if its parts are there, fit, and have only plain characters |
| `Decimals.DecimalInjective` | internal/cgroups/identity.go:25 | different numbers are written differently |
| `Decimals.DecimalValue` | internal/cgroups/identity.go:25 | a numeral stands for its number |
| `Finalization.SuccessfulStops` | internal/state/lifecycle.go:119-158 | at most two stop calls of a generation succeed, the first then without an exit code and the second with one |
| `Finalization.FurtherStopExactly` | internal/state/lifecycle.go:119-140 | in every reachable state, a further stop call of a stopped generation succeeds if and only if its stop is on record without an exit code and the call brings one |
| `Finalization.StoppedOnce` | internal/state/lifecycle.go:119-158 | if every finalizer knows the exit code and no start is aborted, at most one actor per generation is told it made the change |
| `Finalization.StoppedTwice` | internal/state/lifecycle.go:119-140 | the condition is needed: a run in which two finalizers of one generation are both told so |
| `FinalizationAlone.FinalizedAlone` | internal/container/generation_finalize.go:21-71 | a finalizer left alone on a willing host stops the generation, removes each thing it owned once, and leaves the container startable |
| `FinalizationRetries.FinalizedOnAnyHost` | internal/container/generation_finalize.go:21-71 | whatever the host refuses, a finalizer tries every removal once and keeps exactly the tokens of what was refused |
| `FinalizationRetries.AbortedOnAnyHost` | internal/container/runtime_control_linux.go:132-168 | so does a failed start, in its own order, the captured cgroup first |
| `FinalizationRetries.FinalizedAgain` | internal/container/generation_finalize.go:217-268 | a second finalizer finishes what is left and changes the record only by an exit code that was not known |
| `FinalizationRetries.LateActorsSpare` | internal/container/generation_finalize.go:34-46 | once another generation is on record a late finalizer does nothing, and a late failed start touches only its captured cgroup and its own DNS entry |
| `FinalizationRetries.AlwaysReloads` | internal/container/generation_finalize.go:21-35 | whatever fails before, and how, a finalizer gets to where it reloads the record |
| `FinalizationRetries.UnseenStopCleans` | internal/container/generation_finalize.go:236-247 | after a stop that was committed unseen the cgroup is left to a retry and the rest removed |
| `FinalizationRetries.CgroupRetried` | internal/container/generation_finalize.go:159-215 | what a cgroup retry alone removes and clears, and exactly when |
| `FinalizationRetries.NetworkRetried` | internal/container/network_ownership_linux.go:105-150 | the same for a network token |
| `FinalizationRetries.DnsRetried` | internal/container/network_ownership_linux.go:201-230 | the same for the DNS entry of the generation whose stop is the revision seen |
| `FinalizationRetries.RetriesFinish` | internal/container/generation_finalize.go:108-150 | a finalizer on any host and the two retries on a willing one leave nothing pending, and the container can start again |
| `FinalizationRetries.TokensRecorded` | internal/state/cgroup_ownership.go:197-238 | a token is taken exactly while its generation runs and no other is there |
| `FinalizationRetries.TokensCleared` | internal/state/cgroup_ownership.go:240-277 | a token is cleared exactly by naming it, a cgroup's while nothing runs and a network's while no other generation does |
| `FinalizationRetries.StopRecordedExactly` | internal/state/lifecycle.go:96-159 | a stop is recorded exactly for the running generation, or supplies the code its own stop did not know |
| `FinalizationRetries.CreatedStopped` | internal/state/created_lifecycle.go:15-60 | a start that failed before there was a process is stopped exactly if it owned nothing |
| `FinalizationProgram.StateStore.MarkRunningAs` | internal/state/lifecycle.go:12-83 | refused while another generation runs or a token of a stopped one is pending |
| `FinalizationProgram.StateStore.MarkStoppedIfIdentity` | internal/state/lifecycle.go:96-159 | stops exactly the identity on record, or supplies its missing exit code |
| `FinalizationProgram.StateStore.ClearCgroupOwnershipIfMatch` | internal/state/cgroup_ownership.go:240-277 | compare and delete, refused while anything runs |
| `FinalizationProgram.StateStore.ClearNetworkOwnershipIfMatch` | internal/state/network_ownership.go:311-348 | compare and delete, refused while another generation runs |
| `FinalizationProgram.RemoveNetwork` | internal/container/network_ownership_linux.go:52-76 | every mapping from the last back and then the interface is tried, and any failure reported |
| `FinalizationProgram.CleanupNetworkOwnership` | internal/container/network_ownership_linux.go:37-95 | the token survives unless everything it names is gone |
| `FinalizationProgram.CleanupNetworkAfterDurableStop` | internal/container/network_ownership_linux.go:105-150 | nothing happens before the stop is recorded, and only for the generation of that stop |
| `FinalizationProgram.ClearOwnedGenerationAfterCleanup` | internal/container/generation_finalize.go:108-129 | succeeds exactly when no token is left |
| `FinalizationProgram.CleanupOwnedGeneration` | internal/container/generation_finalize.go:131-150 | a token with a foreign name is refused; otherwise removal, then clearing |
| `FinalizationProgram.CleanupStoppedCgroup` | internal/container/generation_finalize.go:159-215 | a retry acts only for the revision its caller saw and for the generation of that stop |
| `FinalizationProgram.FinalizeStopped` | internal/container/generation_finalize.go:217-268 | the stop is recorded before the generation's cgroup is touched |
| `FinalizationProgram.CleanupNetworkIfOwned` | internal/container/generation_resource_cleanup_linux.go:16-42 | another generation's token is left alone |
| `FinalizationProgram.CleanupCgroupIfOwned` | internal/container/generation_resource_cleanup_linux.go:56-77 | so is another generation's cgroup token |
| `FinalizationProgram.CleanupExternal` | internal/container/generation_finalize.go:27-95 | DNS, ports and interface go only if the stop on record is the generation's own |
| `FinalizationProgram.FinalizeStoppedGeneration` | internal/container/generation_finalize.go:21-71 | the whole call equals its actor left alone |
| `FinalizationProgram.AbortRuntimeSetup` | internal/container/runtime_control_linux.go:132-168 | the cleanup of a failed start equals its actor left alone: stop, captured cgroup, and then what the generation still owns |
| `FinalizationProgram.CleanupAborted` | internal/container/generation_resource_cleanup_linux.go:79-100 | DNS, cgroup and network of the generation go once a stop is on record |
| `FinalizationProgram.CleanupStoppedDns` | internal/container/network_ownership_linux.go:201-230 | a retry of the DNS cleanup acts for the generation whose stop is the revision seen |

## Left out

- StagingNames.LayerLeavesExactly: a staging name is recorded by the target it lies beside; its random part, and an archive that guesses it, are not modelled.
- Whiteouts.StreamRefinesTwoPhase: a sufficient condition when a layer has hard links; the exact one in `WhiteoutsExact` is for layers without them.
- LayerExtractor.RootFS.RemoveWhiteout: removes a subtree in one step; the descriptor-relative recursion is not part of this model.
- LayerExtractor.FinalizeDirectoryMetadata: does not set owner, mode, times or extended attributes, nor sort the records by depth; whether a directory lets its metadata be restored is a parameter.
- LayerExtractor.ApplyLayerReader: starts from entries whose names are already split into components; tar and gzip parsing, file contents and the textual path check are not modelled.
- Hard-link metadata is compared as root compares it; rootless extraction skips the owner. Extended attributes are not compared.
- RootWalk.ResolveRootFSPath: takes the root as already canonical and the file system as static; a read of a link that fails after its inspection is not modelled.
- CgroupUpdate.PlannedResourceUpdates: takes CPU counts as real numbers; floating-point rounding and non-finite values are not modelled.
- Seccomp.BuildFilter: the 16-bit program length and the installation of the filter are not modelled.
- EventLogWriter.Writer.Append: effects reach the disk in program order; loss of unsynced data, locks and swapped paths are not modelled.
- EventLogSafety.EveryHistory: covers appends and stops, not outside tools that truncate or edit the files.
- EventStream.StreamEventLog: output errors are not modelled, nor the text and JSON forms of an event.
- EventFollowOrder.FollowsInOrder: covers writers that append, rotate and repair, not tools that rewrite a file; the snapshot of retained files a follower reads first is not modelled.
- EventFollow.Attachment.AfterEof: the inspection and the checkpoint behind it are one step.
- LifecycleStaging.EveryRun: one process; staged exec events are not modelled.
- HostRegistry.BoundEntryKept: process probes are an oracle that may fail; the older liveness proofs for entries without a generation are another. The migration cleanup of such entries is not modelled.
- HostRegistryStore.Store.Save: the size limit of the encoded registry and failures of writing, renaming and syncing the file are not modelled.
- HostRegistryStore.Store.BindGeneration: the address read before the lock is a parameter and its release afterwards a separate step, so that other attempts may come between.
- FinalizationHost.EveryRemoval: one container; deleting its record, publishing the die event and records from before exit identities were kept are not modelled. A process identity is bound to a container at most once.
- FinalizationHost.RunningUntouched: an actor removes a network token's ports and interface in one step, any part of which may fail; `FinalizationProgram.RemoveNetwork` has the loop. The checks before an interface is deleted are part of its name here, which has the owner.
- FinalizationProgram.AbortRuntimeSetup: whether the cgroup was captured before the child was killed is a parameter; the unmanaged start without a store is not modelled.
- `applySeccomp`, the command line, the daemon, metrics readers, image metadata and the non-Linux variants are not modelled.
