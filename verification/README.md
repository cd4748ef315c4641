# Workload agent: VM and image lifecycle

A Dafny model of the part of the workload agent that libvirt's hook drives: Prepare,
Start and Stop. Together they keep a reference count of VMs per encrypted image, in
memory and in a file, and a table of dm-crypt volumes, mounts, sparse files and
symlinks. `dafny verify dfyconfig.toml` checks everything.

## The three models

**Counting and persistence under interleaving.** `Association` holds the table of
pointers and its file as a class; `History` gives the laws of committed changes; `Calls`
writes each RPC call as a tree of atomic steps in the order of the source's locks,
commits, saves and error exits; `Interleaving` runs any number of such calls in any
order. Prepare and Stop hold `wlaMtx`, Start does not; the snapshot of a save is taken
outside `MapMtx` and written under it, and the write itself is a truncation followed by
the bytes; the lazy reload is a test, an open, a read and a merge. `RunTheorems`,
`ReloadTheorems`, `LockTheorems`, `RunningVms` and `MountedRuns` state what holds of
every run, and `HostedRuns` lets the calls act on a host meanwhile; `Witnesses` shows,
step by step, three runs in which something expected fails. `SoloCalls` ties the machine
to the serial calls: a Start or Stop that runs while no other call holds a lock leaves
exactly what the serial one leaves, and a Prepare the same table and file. In every run,
whatever overlaps, no count is negative, last-VM decisions alternate with rises from
zero, an image keeps the path of its first create, and a count differs from the creates
minus the deletes that hit by exactly what reloads took back.

**Volumes, mounts and files.** `Volumes` describes the host and every call on it as a
function of the host and of the outcome of each system call, so that all failure points
are covered; `HostMachine` is the same code as a class that changes the host in place
and keeps the invariant in every call. `VolumeTheorems`, `HostRuns` and `ImageVolumes`
prove what is kept; `VolumeAnswers`, `PrepareAnswers` and `AgentAnswers` write out what
each volume manager, Prepare, Start and Stop answer and leave behind for every outcome
of every call, and exactly when they succeed. `PreparedVms` follows one VM's disk from
its first Prepare on, `DiskLives` has such lives in which every call succeeds, and
`HostWitnesses` the hosts on which success does not mean what it seems to. `Agent` joins
host, table and file; `AgentRuns`, `HostTwins` and `Restarts` cover serial runs with
restarts, and `AgentDaemon` is the object behind the RPC methods. `Filewatch` is the
handler registry and its dispatch loop.

**The text pipeline.** `Text` has the string functions that Prepare relies on;
`QemuInfo` the field scans over `qemu-img info` output and the two command lines built
from what they find; `Recreation` the commands that a whole Prepare makes of them.

Automatic induction is switched off in every lemma to which Dafny would apply it, so
each proof by induction is written out.

## What turned out false, and exactly when it holds

- "The image is torn down only when no VM uses it": a Start can commit behind a Stop's
  Delete (`Witnesses.TeardownWithACountedVm`). The count at the teardown is exactly the
  number of such commits, so it is zero if and only if there was none
  (`RunTheorems.CountAtTeardown`). Without such a commit every counted image is mounted
  in every interleaved run (`HostedRuns.CountedImagesStayOnTheHost`), and so it is in
  serial runs (`AgentRuns.MountedWhileCounted`).
- "The file shows the table when all calls have returned": two overlapping saves can be
  written in the wrong order (`Witnesses.OverlappingSavesLeaveTheFileStale`). In every
  reachable state the difference is exactly the creates minus the successful deletes
  committed after the last written snapshot, minus what reloads took back since
  (`RunTheorems.FileDrift`), and a restart loses exactly that
  (`RunTheorems.RestartLosesTheDrift`); without overlap it is nil
  (`RunTheorems.FileEqualsTableWithoutOverlap`).
- "The lazy reload changes nothing": it can take a Start's increment back
  (`Witnesses.OverlappingReloadLosesACount`). It is a no-op if and only if no image of
  the file was started again after the snapshot that was read
  (`ReloadTheorems.MergeEffect`). It never makes a count negative, never
  changes a path, and last-VM decisions still alternate with rises from zero
  (`ReloadTheorems.DecisionsAlternateInEveryRun`, `ReloadTheorems.FirstPathInEveryRun`).
- "When vmVolumeManager succeeds, the VM disk is the link into its volume": only if the
  sparse file was new and the second removal worked
  (`VolumeTheorems.WhenSuccessMeansLinked`). An existing sparse file ends the call
  early (`HostWitnesses.ExistingSparseFileLeavesTheDisk`), and a failed removal wraps a
  nil error and so reports success (`HostWitnesses.FailingRemovalLeavesNoDisk`).
- "When imageVolumeManager succeeds, the image is decrypted": an open device or an
  existing sparse file is accepted as it is, so what a torn write left is reported as a
  success by the next call and never repaired (`ImageVolumes.TornDecryptionIsAccepted`).
  What is read after a success is known exactly (`ImageVolumes.WhenSuccessMeansDecrypted`).
- "The recreated disk lies on the decrypted image": only when this very call found the
  image encrypted, and with the image's format only when this very call also made the
  image volume (`Recreation.RecreatedOnTheImage`). A launch that is repeated after its VM
  device could not be opened recreates the disk with an empty backing file
  (`Recreation.RetryLosesTheBackingFile`).
- "A restart is not noticed": the new watcher has no handlers. With clean saves a serial
  run with restarts has the table, the file and the host (but for handlers) of the run
  without them after every event, if and only if no removal of a watched file missed a
  handler that a restart had forgotten and that had something to remove
  (`Restarts.RestartsAreNotNoticed`; for one restart before one removal,
  `Restarts.RestartBeforeRemoval`). Then all replies, paths, commands, verdicts and
  teardown decisions agree too (`Restarts.AlikeRunsReplyAlike`). Otherwise even a Stop can
  differ: with the restart it succeeds and takes the VM off the count, without it the
  handler has removed the disk, and the Stop fails and leaves the count
  (`Restarts.RestartChangesAStop`, on the agent of `Restarts.PreparedAgentIsWatched`).
- "Removing the disk.info beside a VM's disk empties the VM's volume": the source replaces
  every "disk" in the disk's path, so the watched file lies beside the disk if and only if
  the directory's path has no "disk" in it (`PreparedVms.DiskInfoBesideTheDisk`,
  `Volumes.FilesBesideTheDisk`). And the removal empties the volume if and only if the VM is
  mounted at that moment: a VM that is deleted after its Stop leaves its disk in its volume
  (`PreparedVms.RemovalEmptiesExactlyIfMounted`).
- The comment above `Delete` says that an entry whose count is zero is removed; the code
  keeps it, and the model follows the code. That is why paths are still found at zero.

## Contracts of what is not in the repository

The volume library: CreateVolume fails on an open device, otherwise opens it and makes
the sparse file if there is none; it may also fail after making it. Mount needs an open
device and fails on a used mount point. Unmount, when it works, removes the mount that
the path is or lies in: Stop passes the path of the decrypted file, not the mount point.
With an unmount that accepts mount points only, no image is ever taken down
(`AgentRuns.StrictUnmountNeverTakesDown`). DeleteVolume fails while the device is
mounted. Closing keeps the contents of the sparse file. A copy or a write may complete,
fail at once, or leave other bytes behind. qemu-img leaves a disk that depends on the
arguments it gets. The theorems about runs, and the objects, take the sites of a host as
given: VM disks and sparse files lie outside the mount directory, no path has two roles,
identifiers hold no slash, and an image below the mount directory is started from its
own decrypted file.

## Model

| member | source | states |
|---|---|---|
| Association.AssociationStore.Create | wlavm/image_VM_association.go:24-44 | an existing entry gains one VM in place and keeps its first path, a new one starts at count 1; every other entry is unchanged and the file is that of a save of the new table |
| Association.AssociationStore.Delete | wlavm/image_VM_association.go:48-76 | the count drops by one only if it was positive and the entry stays at zero; the verdict and path answered are those of the table before; the verdict does not depend on whether the save works; a miss neither saves nor changes anything |
| Association.AssociationStore.ImagePathFromVMAssociationFile | wlavm/image_VM_association.go:100-120 | only an empty table is loaded from the file; the answer is the stored path, also at count zero, else "" |
| Association.AssociationStore.LoadImageVMAssociation | util/util.go:33-61 | a load overwrites exactly the entries of the file with new records and keeps the others; a failed read changes nothing |
| Association.AssociationStore.SaveImageVMAssociation | util/util.go:64-86 | a save leaves the file alone before the open, cut off after a failed write, and otherwise the encoding of the table |
| Association.AssociationStore.NewRecords | util/util.go:56 | one fresh record per decoded entry, none shared between images |
| History.Conservation | wlavm/image_VM_association.go:29-68 | the count is the initial count plus the creates minus the deletes that hit, over any history whose merges change nothing |
| History.ImagesAreKept | wlavm/image_VM_association.go:55-69 | no image ever leaves the table |
| Calls.EveryCallIsDisciplined | rpc/server.go:73-141 | on every path through every call: no lock taken twice, leaf locks innermost, Delete and reload only under wlaMtx, teardown only on a last-VM verdict under wlaMtx and the teardown mutex, nothing held at return |
| Calls.SaveDisciplined | util/util.go:64-86 | a save takes MapMtx only for the write, after a snapshot newer than the commit, and releases it on every error path |
| Interleaving.EveryRunKeepsInv | rpc/server.go:73-141 | in every interleaving of any number of calls: table = replay of the commits, locks exclusive, each thread's verdict, snapshot and read bytes true of the history |
| Interleaving.EmptyPathMeansMiss | wlavm/stop.go:86 | Delete's path is empty exactly when it found no live association |
| RunTheorems.CountAtTeardown | wlavm/stop.go:75-113 | when a Stop unmounts or closes the image, its own Delete took the count from one to zero, no Delete or reload has been committed since, and the count equals the Start commits that slipped in behind it |
| RunTheorems.EmptyPathInStop | wlavm/stop.go:85-89 | the early return of Stop is taken exactly when Delete met no live association; otherwise the path is the stored one under the mount directory |
| RunTheorems.FileIsASnapshot | util/util.go:64-86 | the file is empty or shows the table of one moment, never older than its writer's own commit; it is empty only before the first write, after a failed save, or while a writer holds MapMtx between truncation and write |
| RunTheorems.FileDrift | util/util.go:70-81 | in every reachable state memory and file differ per image by exactly the creates minus the successful deletes committed after the last written snapshot, minus what reloads took back since |
| RunTheorems.RestartLosesTheDrift | main.go:446-449 | a restart in any reachable state loses or gains exactly that difference per image, and everything if the file is empty |
| RunTheorems.FileEqualsTableWithoutOverlap | wlavm/image_VM_association.go:29-39 | if saving and reloading calls never overlap and no save fails, the file equals the table whenever none is in progress, and a restart restores it |
| RunTheorems.EmptyTableEmptyFile | wlavm/image_VM_association.go:104-110 | an empty table implies an empty file in every run |
| ReloadTheorems.MergeEffect | util/util.go:52-60 | a reload takes back exactly the creates committed after the snapshot it read, and leaves the table alone if and only if no image of the file had any |
| ReloadTheorems.ReloadsOnlyTakeBack | util/util.go:52-60 | over every run, what reloads do to a count is never an increase |
| ReloadTheorems.ConservationInEveryRun | wlavm/image_VM_association.go:24-76 | over every run the count is the loaded count plus the creates minus the deletes that hit, minus what reloads took back, which is never negative |
| ReloadTheorems.DecisionsAlternateInEveryRun | wlavm/image_VM_association.go:29-68 | over every run, whatever reloads overlap, no count is ever negative, and last-VM decisions = rises from zero, corrected by whether a VM is counted at the start and at the end |
| ReloadTheorems.FirstPathInEveryRun | wlavm/image_VM_association.go:30-37 | over every run, an image that was not loaded keeps the path of its first create, at count zero and after reloads too |
| ReloadTheorems.LoadedPathInEveryRun | wlavm/image_VM_association.go:30-37 | over every run a loaded image stays in the table with the path of the file |
| ReloadTheorems.CountsAreConserved | wlavm/image_VM_association.go:24-76 | in a run in which no Create commits during a reload, reloads take nothing back: the count is the loaded count plus the creates minus the deletes that hit |
| RunningVms.CountIsRunningVms | wlavm/start.go:101-108 | in every reachable state whose run began on a table counting the VMs then running, and whose commits, apart from merges that changed nothing, are those of VMs alternating start and stop, the count is the number of running VMs of the image |
| RunningVms.CalmRunCountsVms | wlavm/image_VM_association.go:24-76 | the same for every run from a file that counts the VMs running at the start, if no Create commits during a reload |
| RunningVms.VerdictIsAboutRunningVms | wlavm/stop.go:75-95 | in such a run a Stop always finds its association, and is told "last VM" exactly when no other VM of the image was running at its Delete |
| RunningVms.RunningVmsAtTeardown | wlavm/stop.go:97-113 | when such a Stop tears the image down, as many VMs run on it as have been started behind its Delete |
| MountedRuns.CountedImagesAreMounted | rpc/server.go:73-141 | in every interleaved run in which each Start commits for a mounted image and not while a Stop is between its last-VM verdict and the end of its teardown, every counted image is mounted in every state |
| HostedRuns.CountedImagesStayOnTheHost | wlavm/stop.go:97-113 | the same on a host that the calls act on while they interleave, Prepares and Stops under wlaMtx and removals under the mutex of the watcher, with Stops unmounting the paths and closing the devices of their own Deletes and any outcome of every call: every counted image is mounted on its open device |
| HostedRuns.UnmountedPath | wlavm/stop.go:86-104 | the path with which an interleaved Stop unmounts is the decrypted file of its own image |
| LockTheorems.NoDeadlock | rpc/server.go:104-141 | in every reachable state with an unfinished call some call can take a step |
| LockTheorems.FinishedHoldsNothing | rpc/server.go:104-105 | a finished call holds no lock and has no save or reload open |
| LockTheorems.StepsShorten | rpc/server.go:73-141 | every step shortens the work left, whatever the outcome of the calls that may fail |
| LockTheorems.EveryCallCanFinish | rpc/server.go:73-141 | from every reachable state all calls in flight can be scheduled to completion, ending with no lock held |
| LockTheorems.PrepareTakes | rpc/server.go:94-115 | exactly the orders in which Prepare takes its locks: wlaMtx, the mutex of the TPM for an image with a header, that of the image volume unless it is skipped, that of the VM volume, the watcher's, each only if everything before it has worked |
| SoloCalls.AloneIsMeaning | rpc/server.go:73-141 | a call that runs while no other call holds a lock is never blocked, and its table, file and host are those of its program read step by step without any lock |
| SoloCalls.CallsReturnAlone | rpc/server.go:73-141 | every call spawned while no lock is held can run alone, and returns |
| SoloCalls.StartAlone | wlavm/start.go:35-115 | a Start alone leaves what the serial Start leaves, with a clean save if every outcome is good; a failed save is recorded exactly when the VM was counted |
| SoloCalls.StopAlone | wlavm/stop.go:34-116 | a Stop alone leaves the host, table and file of the serial Stop: a teardown both unmounts and closes, and both take effect if the teardown calls work |
| SoloCalls.PrepareAlone | wlavm/image_VM_association.go:100-120 | a Prepare alone never writes the file, and loads it into an empty table exactly when it asks for a path and open and read work |
| Witnesses.OverlappingSavesLeaveTheFileStale | util/util.go:70-81 | two overlapping Starts both succeed and leave count 1 in the file, 2 in the table |
| Witnesses.OverlappingReloadLosesACount | wlavm/image_VM_association.go:104-110 | a reload overlapping two Starts leaves count 1 after two creates and no delete |
| Witnesses.TeardownWithACountedVm | rpc/server.go:73-91 | a Start behind a Stop's Delete: the image is torn down while the table counts a VM |
| Restarts.RestartsAreNotNoticed | main.go:446-449 | serial runs of the whole agent with clean saves and restarts at any places: after every event table, file and host but for handlers are those of the run without restarts, if and only if no removal missed a forgotten handler that had something to remove |
| Restarts.AlikeRunsReplyAlike | main.go:446-449 | such runs give the same replies, saved paths, qemu-img calls, Delete verdicts, paths and teardown decisions |
| Restarts.RestartBeforeRemoval | wlavm/prepare.go:347-361 | one restart before one removal leaves the same host if and only if no handler was waiting for the file, the volume mounted at its directory is empty, or nothing lies directly below the unmounted directory |
| Restarts.RestartChangesAStop | wlavm/stop.go:47-50 | for a counted, mounted and watched VM, a removal of its disk.info and then a Stop: behind a restart the Stop succeeds and the count falls by one, without it the Stop fails and the count stays |
| HostTwins.RemovalTwins | wlavm/prepare.go:347-361 | a removal keeps two hosts that differ in forgotten handlers alike exactly when no forgotten handler had something to remove |
| Filewatch.InForceIsMostRecent | filewatch/filewatch.go:42-63 | the handler in force is the most recently accepted one that has not been unregistered since |
| Filewatch.RefusalsChangeNothing | filewatch/filewatch.go:46-49 | refused registrations, wherever they occur in the history, can be dropped from it without changing any file's handler |
| Filewatch.Watcher.HandleEvent | filewatch/filewatch.go:42-54 | the registry keeps showing exactly the handlers in force; a refused Add leaves it as it was |
| Filewatch.Watcher.UnhandleEvent | filewatch/filewatch.go:57-63 | the file has no handler afterwards, other files keep theirs |
| Filewatch.Watcher.Watch | filewatch/filewatch.go:67-88 | the k-th signal runs the handler in force in the registration history at its dispatch, or none; order is signal order; the loop ends at the first closed channel |
| Text.TrimSpaceIs | wlavm/prepare.go:103 | trimming cuts a leading and a trailing run of white space and leaves neither behind |
| Text.SplitJoin | wlavm/prepare.go:102 | splitting at a character undoes joining |
| Text.SplitRejoins | wlavm/prepare.go:102 | splitting cuts at every occurrence: no part contains the separator, and joining the parts gives the text back |
| Text.FieldsUndoJoin | wlavm/prepare.go:95 | words joined by blanks come back if and only if each is non-empty and without white space |
| Text.SprintfWeaves | wlavm/prepare.go:261-262 | formatting puts the arguments between the pieces of the template |
| Text.ReplaceChanges | wlavm/prepare.go:299 | replacing by a longer text changes a string exactly when the searched text occurs |
| Text.ReplaceIsSplitAndJoin | wlavm/prepare.go:299 | replacing all occurrences is cutting the text at them and joining the parts by the new text |
| QemuInfo.TemplatesAreTheConstants | consts/constants.go:66-67 | the template pieces make up the two command templates |
| QemuInfo.PiecesOfLine | wlavm/prepare.go:103-107 | the split pieces that the loops test and take are the text before the first ": " and the text up to the second |
| QemuInfo.PiecesOfSize | wlavm/prepare.go:252 | the byte size is the text between the first "(" and the next blank or "(", and the index panics exactly when there is no "(" |
| QemuInfo.Scan | wlavm/prepare.go:102-111 | the loop computes the last hit of its field, for any text |
| QemuInfo.ScanYieldsLastCarrier | wlavm/prepare.go:211-220 | a scan yields the value of the last line that carries the field, or the old value if no line does |
| QemuInfo.ScanDisk | wlavm/prepare.go:243-259 | the three-field loop, with its panic, computes the fold of its lines |
| QemuInfo.LoopIsThreeScans | wlavm/prepare.go:243-259 | that loop panics exactly when some "virtual size" line has no "(", and otherwise is three independent last-value scans |
| QemuInfo.CreateArgsAreIntended | wlavm/prepare.go:261-262 | the create command gets its six arguments if and only if format and VM path are single words and backing file and format hold no white space |
| QemuInfo.ResizeArgsAreIntended | wlavm/prepare.go:270-271 | the resize command gets its three arguments if and only if path and size are single words |
| QemuInfo.RenderedDisk | consts/constants.go:62-64 | a text rendered with backing file, size and format, one line each, shows exactly these to the scans |
| Recreation.PrepareRuns | wlavm/prepare.go:225-277 | whatever fails, the commands of a Prepare are the first of create and resize with the scanned format and size, the decrypted image and its scanned format; none for a linked disk, both before a success |
| Recreation.PrepareCarriesTheInfo | wlavm/prepare.go:138-276 | for an encrypted image whose flavor requires encryption: format and byte size rendered in the info text arrive in the commands that Prepare runs, with the decrypted image as backing file; the backing format is the rendered one unless a non-empty decrypted file is there and the second header check finds no header, and then it is empty |
| Recreation.RecreatedOnTheImage | wlavm/prepare.go:140-220 | the recreated disk gets an empty backing file if and only if this call found the image not encrypted, and an empty backing format on the decrypted image if and only if the image was not required to be encrypted, was already decrypted by content and second header check, or its info had no format |
| Recreation.RetryLosesTheBackingFile | wlavm/prepare.go:119-143 | a launch whose VM device is refused puts the disk on the decrypted image and fails; the next launch recreates it with an empty backing file and format |
| Volumes.DerivedPathsAreDistinct | wlavm/prepare.go:299 | sparse file and watched file differ from the VM disk exactly when its path contains "disk" |
| Volumes.FilesBesideTheDisk | wlavm/prepare.go:348 | for a disk called "disk", sparse file and watched file lie beside it if and only if the path of its directory has no "disk" in it |
| VolumeTheorems.PlaceholderMissesTheVolume | wlavm/prepare.go:503-549 | the truncating placeholder open never lands on a mounted volume |
| VolumeTheorems.CheckMountKeeps | wlavm/prepare.go:503-549 | mounting a newly opened device changes no volume and no file outside the mount directory, and on success the volume is mounted |
| VolumeAnswers.MountAnswer | wlavm/prepare.go:503-549 | on any host the mounting step succeeds exactly when its calls work, the device being open, or the mount point being in use already; the placeholder is written even if a later call fails |
| VolumeTheorems.CopyInVolume | wlavm/prepare.go:325-330 | the copy lands in the VM's volume and nowhere else |
| VolumeTheorems.LinkEffect | wlavm/prepare.go:453-499 | a link that is reported made is there if the removal worked, a failed removal changes nothing, and no other file outside the mount directory is touched |
| VolumeAnswers.SymlinkAnswer | wlavm/prepare.go:453-499 | for every outcome the link is made, the file is gone or the file is untouched, and a failed removal counts as a success |
| VolumeTheorems.VmManagerKeeps | wlavm/prepare.go:292-364 | whatever fails: host invariant kept, existing volumes untouched, only the VM's own two files change, nothing is unmounted |
| VolumeTheorems.DiskIsNeverLost | wlavm/prepare.go:324-345 | whatever fails, a disk found at entry is afterwards whole in place or whole in the volume |
| VolumeTheorems.WhenSuccessMeansLinked | wlavm/prepare.go:318-345 | success means the disk became the link if and only if the sparse file was new and the second removal worked; the old disk is read through it exactly when the file is called "disk" |
| VolumeAnswers.VmAnswer | wlavm/prepare.go:292-364 | files, devices, mounts, handlers and result of vmVolumeManager for every outcome of its calls: an opened device stays open and a mounted volume mounted when a later step fails, a new sparse file takes the copy, the disk is in place, linked or gone, and the handler is registered last |
| VolumeAnswers.VmSucceedsExactlyWhen | wlavm/prepare.go:302-364 | for a missing, regular or linked disk, vmVolumeManager succeeds if and only if the VM's device is closed, the sparse path holds nothing or a volume, creating and mounting work and, only for a sparse file that is new and seen to be, the disk is a regular file and copy, removal and link work |
| VolumeAnswers.WatchedAfterVm | wlavm/prepare.go:347-361 | a handler for the VM's disk.info is registered exactly by a successful call on a new sparse file whose watch works, and nothing else is |
| VolumeAnswers.RemovalAnswer | wlavm/prepare.go:350-359 | the removal of a watched file empties the whole volume of a mounted VM, removes the files on the bare mount point of an unmounted one, and any other removal changes nothing |
| HostWitnesses.ExistingSparseFileLeavesTheDisk | wlavm/prepare.go:318-322 | a host on which vmVolumeManager succeeds and the disk stays a regular file |
| HostWitnesses.FailingRemovalLeavesNoDisk | wlavm/prepare.go:463-468 | a host on which vmVolumeManager succeeds and nothing is left at the disk's path, the disk being whole in the volume |
| HostRuns.ImageManagerKeeps | wlavm/prepare.go:366-451 | whatever fails, existing volumes and all files but a fresh sparse file stay as they were |
| VolumeAnswers.ImageAnswer | wlavm/prepare.go:366-451 | files, devices, mounts and result of imageVolumeManager for every outcome of its calls |
| VolumeAnswers.ImageSucceedsExactlyWhen | wlavm/prepare.go:366-451 | for an image that is a regular file, imageVolumeManager succeeds if and only if its device is open, or the sparse path holds nothing or a volume, creating and mounting work and, only for a sparse file that is new and seen to be, reading, decryption, write and ownership calls work |
| VolumeAnswers.ImageComesUpAgain | wlavm/prepare.go:396-400 | an image that its last Stop has taken down comes up again: its volume is mounted as it is, without any decryption |
| ImageVolumes.FirstImageCallDecrypts | wlavm/prepare.go:402-422 | a call that completes from a fresh sparse file leaves exactly the decryption of the original, readable at the decrypted path |
| ImageVolumes.WhenSuccessMeansDecrypted | wlavm/prepare.go:378-422 | after a successful call a content is read at the decrypted path if and only if it was read before (device open), the volume had it (sparse file present), or it is the decryption (new sparse file) |
| ImageVolumes.TornDecryptionIsAccepted | wlavm/prepare.go:378-422 | a first call torn in its write fails, any second call succeeds, the torn content is what is read, and no later event ever changes it |
| HostRuns.PrepareKeeps | wlavm/prepare.go:45-290 | one Prepare under any failures: invariant, volumes and mounts kept, only its own devices opened, a linked VM's disk and sparse file not touched |
| PrepareAnswers.PathOfPrepare | wlavm/prepare.go:90-123 | a linked disk has the path of its domain, any other the backing file of the last line of its info that names one, else the path of the domain; the saved path stands in for an empty one, and there is none if the info is missing or the saved path is empty too |
| PrepareAnswers.PlainVmIsLeftAlone | wlavm/prepare.go:225-289 | a VM on an image that is not encrypted and not under the mount directory: Prepare succeeds, runs no command and touches nothing |
| PrepareAnswers.RefusedPrepareChangesNothing | wlavm/prepare.go:55-196 | a request that cannot be parsed, has no path, no header answer, or no key where one is needed fails and leaves the host as it is |
| PrepareAnswers.DecryptedImageIsLeftAlone | wlavm/prepare.go:142-148 | when a non-empty decrypted file is there and the second header check finds no header, volume, device and mount of the image stay as they were; only the VM's own files, device and mount may differ |
| PrepareAnswers.RecreateAnswer | wlavm/prepare.go:233-277 | a missing info leaves the disk and fails, an unreadable one panics, a failed create leaves what create has left and resize is not called, and only both together succeed |
| PrepareAnswers.PrepareAnswer | wlavm/prepare.go:45-290 | host, result and commands of the whole Prepare for every outcome of its calls, from the image part over the disk to the VM's volume |
| PrepareAnswers.PrepareSucceedsExactlyWhen | wlavm/prepare.go:45-290 | exactly when Prepare succeeds and exactly when it panics, in terms of the host it finds, the path, the header answers, the flavor, the info text and the outcomes of the calls |
| PrepareAnswers.WatchedAfterPrepare | wlavm/prepare.go:347-361 | a Prepare registers a handler exactly when it succeeds, makes the VM's volume and the watch works |
| HostRuns.StopKeeps | wlavm/stop.go:34-116 | one Stop under any failures: no file changes, devices and mounts only go away, no device while mounted |
| HostRuns.CloseVmCloses | wlavm/stop.go:61-73 | when unmount and close work, exactly the VM's mount and device are gone |
| HostRuns.EveryRunKeepsHostInv | wlavm/prepare.go:378-391 | mounted implies device open at its own mount point, in every reachable state |
| HostRuns.ImageVolumesNeverChange | wlavm/prepare.go:396-400 | once an image has a volume, no later call, teardown, guest write or file removal changes it |
| PreparedVms.PreparedStaysPrepared | wlavm/prepare.go:299-345 | over any number of Prepares and Stops until disk.info is removed, the disk stays the link and the volume holds what the VM last wrote |
| PreparedVms.FirstPrepareSettles | wlavm/prepare.go:225-345 | the first successful Prepare of a VM without a volume recreates its disk and leaves it linked, with the volume holding what the resize left |
| PreparedVms.PreparedVmReadsItsDisk | wlavm/prepare.go:310-322 | after any later successful call the VM reads exactly its disk through its path |
| PreparedVms.LaterPrepareReads | wlavm/prepare.go:225-322 | a later successful Prepare makes no qemu-img call, and if it gives the VM a volume the VM reads exactly its disk through its path |
| PreparedVms.DiskSurvives | wlavm/prepare.go:45-290 | from a first Prepare through any Prepares, Stops, writes and failures to a last Prepare: the VM reads exactly what it last wrote, or what the first resize left |
| PreparedVms.RemovalEmptiesExactlyIfMounted | wlavm/prepare.go:347-361 | after a first Prepare and any later events its handler is still in force, and the removal of the watched file empties the VM's volume if and only if the VM is then mounted; otherwise the volume keeps what the VM last wrote |
| PreparedVms.DiskInfoBesideTheDisk | wlavm/prepare.go:347-361 | after a first Prepare, removing the disk.info beside the disk takes the disk away if and only if the directory's path has no "disk" in it; else the VM still reads its disk |
| DiskLives.ADiskLives | wlavm/prepare.go:45-290 | from every host with a regular disk and a closed device, a first Prepare, a guest write, a Stop and a second Prepare can all succeed, they are a life in the sense of DiskSurvives, and the VM then reads what it wrote |
| DiskLives.OneDiskLives | wlavm/prepare.go:225-345 | such a host: one regular disk and nothing else |
| DiskLives.OneRetry | wlavm/prepare.go:119-143 | a host and a launch on the image of another VM, with a repetition whose create command has an empty backing file and format |
| HostMachine.Machine.VmVolume | wlavm/prepare.go:292-364 | for every failure point: the outcome that VmAnswer writes out, handler included; the host invariant, all volumes and all mounts are kept, and a disk found as a regular file is whole in place or whole in the volume |
| HostMachine.Machine.ImageVolume | wlavm/prepare.go:366-451 | for every failure point: the outcome that ImageAnswer writes out; the host invariant, all volumes, all mounts and all files but a fresh sparse file are kept |
| HostMachine.Machine.RecreateVmDisk | wlavm/prepare.go:233-277 | the commands made of the scanned info, panic included; only the disk changes, and after success it holds what the resize left |
| HostMachine.Machine.PrepareDomain | wlavm/prepare.go:45-290 | for every outcome of its calls: the host, result and commands that PrepareAnswer writes out; the invariant, all volumes and mounts and the files of other VMs are kept |
| HostMachine.Machine.CloseVmVolume | wlavm/stop.go:46-73 | no file changes, no device goes away while mounted, and a working unmount and close remove exactly the VM's mount and device |
| HostMachine.Machine.CloseImageVolume | wlavm/stop.go:103-113 | errors are ignored, no file changes, no device goes away while mounted; with the decrypted file's path, a working unmount and close take the image down |
| AgentDaemon.Daemon.Start | wlavm/start.go:35-115 | over the pointers of the table: one VM more on its image exactly for a valid request on an image under the mount directory with every check passed, an absent image entering with its path and a known one keeping its own; the file and the reply are those of the save; else nothing changes |
| AgentDaemon.Daemon.Prepare | rpc/server.go:94-115 | Prepare under wlaMtx, released on every path, with the lookup and the lazy load exactly when no path was found; the host of the written-out outcome, the agent invariant, all volumes and all mounts |
| AgentDaemon.Daemon.Stop | rpc/server.go:118-141 | Stop under wlaMtx, released on every path: nothing changes unless it proceeds, and then the VM's mount and device go as far as unmount and close work, the count falls by one if it was positive, and the image goes for the last VM only; an image still counted is not unmounted |
| AgentAnswers.StartAnswer | wlavm/start.go:54-114 | the serial Start: count, path, file and reply in every case |
| AgentAnswers.StopAnswer | wlavm/stop.go:34-116 | the serial Stop: devices, mounts, count, file and reply in every case |
| AgentAnswers.StoppedVmIsClosed | wlavm/stop.go:61-73 | when unmount and close of the VM work, its mount and device are gone after a Stop that proceeds, for every verdict of the table |
| AgentAnswers.StopHost | wlavm/stop.go:85-113 | the host after a Stop is that of a Stop with the verdict and the path that the table has for its image |
| AgentAnswers.PrepareCallAnswer | wlavm/image_VM_association.go:100-120 | the table is asked exactly when no path was found, an empty one is loaded first, and counts and file never change otherwise |
| AgentAnswers.StoredPathIsUsed | wlavm/prepare.go:114-123 | a VM from shutoff without a path in its domain goes on with the stored path of its image, or is refused with the host unchanged if there is none |
| AgentRuns.MountedWhileCounted | wlavm/stop.go:75-113 | in every serial run with failures and restarts the image stays mounted as long as the table counts a VM on it |
| AgentRuns.LastStopTakesTheImageDown | wlavm/stop.go:97-113 | the Stop of the last counted VM leaves the image unmounted and its device closed when unmount and close work, for an unmount that accepts a path inside the mount |
| AgentRuns.StrictUnmountNeverTakesDown | wlavm/stop.go:103-113 | for an unmount that accepts mount points only, every Stop leaves the image mounted and its device open |

## Left out

- HTTP clients, flavors, trust reports, signing, the TPM, key unwrapping and decryption: each is an arbitrary success or failure, decryption an arbitrary partial function of the bytes.
- Which key reaches which volume: keys are not part of the model.
- XML decoding and validation: the parsed fields and the outcome of the validation are inputs.
- YAML: the file is empty or the encoding of a table; a write that stops in the middle leaves it empty, and a file written by anything else is not modelled.
- The Go memory model: the marshal, the emptiness test and the merge are single steps although they touch the map without its mutex; in particular a merge cannot replace a record between Create's lookup of it and its increment. Counts are unbounded integers.
- DeleteEntry: it has no caller.
- Locks inside the fsnotify and logging libraries, handlers that take locks, and AddTask/TaskDone of the process library.
- Directories other than as parts of paths, ownership, permissions and disk sizes; unlinking a sparse file whose device is open.
- HostedRuns: the host part of a Prepare, and the VM part of a Stop, happen in one step, which may be any external step of a call that holds wlaMtx; the calls hold it throughout, so no other such part comes in between. A removal of disk.info happens in one step under the mutex of the watcher.
- SoloCalls.PrepareAlone: states table and file only, because the machine has the host part of a Prepare as one external step.
- The header check of an image: an arbitrary answer, so the skip of the image volume is covered in both directions.
- A device or mount made by other software under the mount directory, and files renamed or removed by other software, except the removal of disk.info.
- AgentDaemon.Daemon.Prepare: the lookup in the table is made before the host calls of Prepare; it happens under the same condition and neither depends on the other.
- Configuration, setup tasks, the key provider service, the flavor cache and the upgrade scripts.
