# The rclone CSI driver, modelled and proved in Dafny

The driver serves Kubernetes volumes by mounting rclone remotes inside its own process. Its mounts share one mount
table, one in-memory rclone configuration, one set of operation locks and one patched FUSE library, and its requests
pass through loops over Go maps, whose order Go leaves open. This project models these parts and proves what they
keep, for every interleaving, every map order and every outcome of the calls into rclone, the kernel and the mounter.
Strings are ASCII.

**Mount lifecycle.** `MountProtocol` is the state machine of any number of `NodePublishVolume` and
`NodeUnpublishVolume` goroutines. A block under a mutex is one step, an external call is one step with an arbitrary
outcome. `Linearization` proves that interleavings come to running the calls one after the other in the order in which
they took their lock, and `CommitOrder` that under a weaker condition they come to the order in which the calls took
effect; `Answers` what the answers of the calls mean, over whole runs; `MountContexts` where every cancellable context is and who cancels it; `LostMount` for which calls each of these
holds in every run, as equivalences; `ConfigOwnership` which configuration sections exist and for whom, and
`OwnershipExactly` for which requests they are owned in every run; `CallEffects` what single calls do, and that failing unpublishes leave no trace; `LockOrder` that requests never
deadlock under Go's rule that a waiting writer keeps new readers out, and `ScrapeDeadlock` exactly which goroutines do
once Prometheus scrapes join them. `NodeServer` is the server as a class, from the request to the
stored mount, and is proved to be the sequential specification that the interleavings come to; `Prepared` says what
the remotes of a mount are in terms of its request alone.

**Requests.** `Parameters` merges secrets, volume context and fsGroup, extracts the options and lays the mount flags
over them; `Flags` normalises names and cuts out the parameters of a backend; `GoConfig` writes and reads INI text,
with goconfig's reader including comments, quotes and numbered keys, `IniRoundTrip` proves that one undoes the
other, and `IniSections` does so for texts of several sections, as nested remotes need them; `ConfigLoader` and `ConfigLoads` load the result into rclone's storage, and `ConfigRefinement` shows that this
is the one atomic step of the protocol. `Templates` is the substitution of PVC and PV metadata into paths, `Controller`
is `CreateVolume`. `MapLoops` and `MapSums` hold what all loops over maps have in common.

**Around the mount.** `FuseFiles`, `FuseBridge` and `FuseRuns` are the open-file index of the patched FUSE bridge: as
values, as the classes that change it in place, and over whole runs; `FuseSteps` shows that every critical section of
the classes is one event of those runs. `VfsCache` is the creation and the shutdown of a VFS,
under the patch and under the rule that the patch removes, and `VfsRuns` who shares whose VFS and context in runs of
mounts and unmounts. `CacheSync` is the wait before an unmount. `Metrics` is the
aggregation by volume. `GoStrings` has the functions of Go's `strings` package that the driver uses.

Where the code and its own comments differ, the model follows the code:

- `prepareTargetDirectory` returns nil both for a ready and for an already mounted target
  (pkg/rclone/nodeserver.go:294-297), so publish always goes on to mount. `CallEffects.PublishNotIdempotent` says that a
  second publish is never without effect, and `CallEffects.PublishAgainExactly` when it leaves the mount alone.
- The lock is taken on volume ID and target path, the mount is stored under the target path alone. The calls that may
  share a path are given exactly by `LostMount.AcquisitionOrderExactly`, `LostMount.LinearizableExactly`,
  `LostMount.ConservedExactly` and, whatever the external calls answer, `LostMount.SafeForAllOutcomes`.
- A scrape takes the read lock of the mount table twice, one inside the other. `ScrapeDeadlock.DeadlockExactly` says
  exactly when that can deadlock.
- The remote name of a volume's metrics comes from whichever mount the map gives first.
  `Metrics.RemoteNameOrderFreeExactly` says exactly when it does not matter.
- Sections are not reference-counted. `CallEffects.ServedExactlyWhenDisjoint` says exactly when a call takes a section
  away from another mount, and `OwnershipExactly.OwnedExactly` for which requests no call ever does.
- `UpdateRemote` obscures plain passwords and the key loop does not, so the order of the keys can decide whether a
  password ends obscured. `ConfigLoads.OrderFreeExactly` says exactly when orders do not matter,
  `ConfigLoads.PlainPasswordDiffers` shows a password for which they do, and `ConfigLoads.GeneratedConfigLoads` says
  exactly when a generated section is loaded as it was written.
- After a failed `UpdateRemote` nothing is rolled back. `CallEffects.FailedPublishRestores` says exactly when a failed
  publish restores the configuration.
- Parameters are picked for a backend when their name begins with its type, not with its type and an underscore.
  `Flags.ClashExactly` says exactly which names clash.
- An empty substituted path leaves the template in the volume context.
  `Controller.PublishMountsWhatWasPromised` says so as an equivalence.

The hypotheses of `ConfigOwnership` are: one volume ID on each path with a publish that has keys, no keys under a name
that publishes of different paths share, no failing `UpdateRemote`, no section of the driver in the configuration
beforehand, and no publish on a target that has a stored mount.

## Model

| member | source | states |
|---|---|---|
| MountProtocol.LocksExact | pkg/rclone/utils.go:55-70 | In every reachable state the held keys are exactly those of the goroutines between TryAcquire and Release, and no two of these share a key; no hypothesis on the calls |
| MountProtocol.LockKeyVolume | pkg/rclone/nodeserver.go:822 | On one target path two calls exclude each other if and only if they name the same volume |
| MountProtocol.LockKeyInjective | pkg/rclone/nodeserver.go:927 | With absolute paths and volume IDs without a slash, two lock keys are equal if and only if volume and path are |
| Linearization.CompleteIsRunCall | pkg/rclone/nodeserver.go:811-946 | The steps of one goroutine, run without interruption, have the effect of the sequential specification of its call |
| Linearization.Linearizable | pkg/rclone/nodeserver.go:811-946 | In every quiescent state of every run mounts and contexts are those of running the acquired calls one by one in acquisition order, if on each path the publishes that store a mount agree in volume ID with each other and with all unpublishes; with one volume per target and disjoint remotes so is the configuration |
| Linearization.LinearizableResults | pkg/rclone/nodeserver.go:821-826 | That history lists once exactly the calls that were neither aborted nor left unstarted, and a call in it that has answered has answered OK if and only if everything that it needs from outside has succeeded |
| Answers.AnswersExactly | pkg/rclone/nodeserver.go:821-946 | In every reachable state a call that has answered was aborted if and only if it never had its lock, and has answered OK if and only if it had its lock and its preparation, load and mount, or its cleanup, succeeded; no hypothesis on the calls |
| Answers.AnsweredMounts | pkg/rclone/nodeserver.go:880-942 | In every reachable state a publish that has answered OK has its mount stored, unless another publish of the path has stored one or an unpublish of the path has deleted one; a publish that has answered anything else has none stored; no hypothesis |
| Linearization.LinearizablePerTarget | pkg/rclone/nodeserver.go:86-110 | Under the same condition, in every reachable state a target without a call in flight has the mount of the sequential run |
| MountContexts.ContextIsolation | pkg/rclone/nodeserver.go:764-779 | In every reachable state of every run a context is cancelled if and only if its own publish failed to mount, or an unpublish of its own target that had read its mount passed the cancel step |
| MountContexts.EveryContextAccounted | pkg/rclone/nodeserver.go:421-506 | Every created context is cancelled, in the hands of its publish, stored, replaced by another publish of the path, or deleted by an unpublish that had not read it; no hypothesis |
| MountContexts.ContextConservation | pkg/rclone/nodeserver.go:902-908 | In every reachable state every created context is cancelled, in hand, stored or overwritten by a publish of the path that acquired later, if the calls that change a stored mount have the volume ID that it was stored under |
| MountContexts.UnpublishDeletesWhatItRead | pkg/rclone/nodeserver.go:935-942 | Under the same condition an unpublish about to delete finds in the map exactly the entry that it has read, with its context cancelled |
| CommitOrder.EffectsInOrder | pkg/rclone/nodeserver.go:902-942 | If every successful unpublish names the volume of the stores on its path, the order of the stores, of the reads of failing unpublishes and of the deletes of successful ones is a sequential order of the run that respects real time |
| CommitOrder.NoContextLost | pkg/rclone/nodeserver.go:902-942 | Under the same condition every created context is cancelled, in hand, stored, or another publish of the path has stored over it |
| LostMount.TwoVolumesLoseAMount | pkg/rclone/nodeserver.go:927-942 | For any storing publish and any successful unpublish of its path under another volume ID there is a run that loses the mount: its context neither cancelled, stored nor overwritten, its sections left in the configuration, and the mounts not those of the sequential run |
| LostMount.AcquisitionOrderExactly | pkg/rclone/nodeserver.go:822-927 | Every run of a set of calls has the mounts and contexts of its calls in acquisition order if and only if, where a publish stores a mount, every storing publish and every unpublish of the path names its volume |
| LostMount.LinearizableExactly | pkg/rclone/nodeserver.go:822-942 | Every run has the mounts and contexts of some sequential order of its calls if and only if, where a publish stores a mount, every successful unpublish of the path names its volume; and exactly then always of one that respects which call answered before which began |
| LostMount.ConservedExactly | pkg/rclone/nodeserver.go:822-942 | In every run every created context ends cancelled, in hand, stored, or stored over by another publish, under exactly the same condition |
| LostMount.SafeForAllOutcomes | pkg/rclone/nodeserver.go:811-946 | For requests, with every outcome of the external calls: every run comes to its acquisition order if and only if no publish shares its path with a call of another volume; every run is linearizable, and none loses a context, if and only if no publish shares its path with an unpublish of another volume |
| ConfigOwnership.ConfigExactlyOwned | pkg/rclone/nodeserver.go:875-908 | In every reachable state the configuration is what was there before plus, with the values they were loaded with, exactly the sections of publishes in flight past loading and of stored mounts not torn down |
| ConfigOwnership.SectionsLiveAsLongAsMounts | pkg/rclone/nodeserver.go:781-789 | No live mount loses a section that has keys or sees it altered, and no section outlives the teardown of its mount |
| ConfigOwnership.NothingLeftBehind | pkg/rclone/nodeserver.go:405-418 | With all mounts gone and no call in flight the configuration is what it was before the first call |
| OwnershipExactly.OwnedExactly | pkg/rclone/nodeserver.go:348-418 | For requests whose loads succeed and that publish only where nothing is stored, whatever else fails: in every run the configuration is what was there before plus exactly the sections of the live publishes, if and only if calls on the path of a publish with keys name one volume, publishes of different paths share only names without keys, and no publish has a name that was there before |
| CallEffects.CallsCommute | pkg/rclone/nodeserver.go:811-946 | Calls on different targets commute, on the configuration too if remotes are disjoint |
| CallEffects.RetriesLeaveNoTrace | pkg/rclone/nodeserver.go:764-806 | Failing unpublishes of a target, mixed with any calls on other targets and followed by a successful one, have the effect of the successful one alone |
| CallEffects.RetriedUnpublish | pkg/rclone/nodeserver.go:936-942 | The same for whole concurrent runs: the final state is that of a sequential run without the failed attempts |
| CallEffects.ServedExactlyWhenDisjoint | pkg/rclone/nodeserver.go:405-418 | A call leaves every live mount with all its sections if and only if no live mount, but the one it tears down, has a section name that the call deletes, and a mount that it stores has no section without keys that was not there |
| CallEffects.FailedPublishRestores | pkg/rclone/nodeserver.go:875-895 | A failed publish leaves the configuration as it was if and only if it failed before loading, or loaded only names that did not exist, or what a failing update wrote was there already |
| CallEffects.PublishAgainExactly | pkg/rclone/nodeserver.go:294-297 | A publish of a path that has a mount with the same section names leaves that mount and its sections alone if and only if it fails before loading, or what a failing update wrote was there already, or it fails to mount and there are no sections |
| CallEffects.PublishAgainHarms | pkg/rclone/nodeserver.go:881-908 | If it comes to create a mount, it replaces the older one without cancelling its context, or, when mounting fails, deletes the sections of the older one and leaves it stored |
| CallEffects.PublishNotIdempotent | pkg/rclone/nodeserver.go:902-908 | The second of two successful publishes of one request always replaces the first mount, whose context nobody cancels |
| LockOrder.RpcsNeverDeadlock | pkg/rclone/nodeserver.go:86-110 | Any number of publish, unpublish and stats goroutines, refused and early ones included, in any reachable state, have all finished or one can step |
| LockOrder.StuckOnlyByNestedRead | pkg/rclone/metrics_collector.go:310-320 | In any state that the lock discipline allows, nobody can step only if a goroutine that nests reads waits behind a waiting writer |
| ScrapeDeadlock.DeadlockIsAScrape | pkg/rclone/metrics_collector.go:305-321 | In every run of driver goroutines that ends in a deadlock, a scrape over a mount reads ns.mu a second time behind a waiting writer of ns.mu, which is a publish that stores its mount or an unpublish that deletes one |
| ScrapeDeadlock.ScrapeCanDeadlock | pkg/rclone/metrics_collector.go:441-450 | From any set of driver goroutines with such a scrape and such a writer a deadlock is reachable, whoever else is there |
| ScrapeDeadlock.DeadlockExactly | pkg/rclone/metrics_collector.go:305-450 | A set of driver goroutines can deadlock if and only if it has a scrape that finds a mount and a publish that stores a mount or an unpublish that deletes one |
| NodeServer.VolumeLocks.constructor | pkg/rclone/utils.go:48-52 | No key is held at first |
| NodeServer.VolumeLocks.TryAcquire | pkg/rclone/utils.go:55-63 | Succeeds exactly when the key was free; afterwards the key is held and the others are as before |
| NodeServer.VolumeLocks.Release | pkg/rclone/utils.go:66-70 | The key is free and the others are as before |
| NodeServer.GenerateConfigData | pkg/rclone/nodeserver.go:327-345 | The given text, whatever the type; else a text generated from the type and its parameters; an error exactly without a type or without parameters for it |
| NodeServer.Prepare | pkg/rclone/nodeserver.go:841-873 | The remotes and parameters are those of the merged request, extracted, turned into text and read back, for some orders of the loops; an error only for a missing parameter, an invalid name, no text or unreadable text |
| Prepared.GivenConfig | pkg/rclone/nodeserver.go:841-873 | A request with a configuration text of any number of sections in its volume context or secrets is prepared as exactly these sections, whatever its parameters are |
| Prepared.GeneratedConfig | pkg/rclone/nodeserver.go:841-873 | A request without one is prepared as one section with the remote's name and the remote type, and as options exactly the parameters for that type under the backend's names, for every order of the loops |
| NodeServer.Server.constructor | pkg/rclone/rclone.go:93-99 | A server without mounts and locks |
| NodeServer.Server.GetMountContext | pkg/rclone/nodeserver.go:86-93 | The stored mount of the path, if there is one |
| NodeServer.Server.SetMountContext | pkg/rclone/nodeserver.go:96-103 | Stores the mount and leaves the others |
| NodeServer.Server.DeleteMountContext | pkg/rclone/nodeserver.go:106-110 | Removes the mount of the path and leaves the others |
| NodeServer.Server.CleanupConfigRemotes | pkg/rclone/nodeserver.go:406-418 | Exactly the named sections are gone |
| NodeServer.Server.UnmountVolume | pkg/rclone/nodeserver.go:764-806 | Cancels exactly the mount's context and deletes exactly its sections, whether or not the final cleanup succeeds; does nothing without a mount |
| NodeServer.Server.PublishLocked | pkg/rclone/nodeserver.go:828-910 | OK if and only if the request was prepared, its sections loaded and the filesystem mounted; then the path has this mount, and otherwise the stored mounts are as before. The new state is that of the sequential specification, with the sections that the request comes to |
| NodeServer.Server.CreateAndMount | pkg/rclone/nodeserver.go:421-506 | Stores the mount if mounting succeeds; otherwise cancels its context, deletes its sections and stores nothing |
| NodeServer.Server.NodePublishVolume | pkg/rclone/nodeserver.go:811-911 | Aborted without any effect while the key is held; otherwise OK if and only if the request was prepared, its sections loaded and the filesystem mounted, and only then a mount is stored, under its path. It is one operation of the sequential specification on the sections that the request comes to, with the locks as before, and fails before loading only if the directory is not ready or the request is refused |
| NodeServer.Server.NodeUnpublishVolume | pkg/rclone/nodeserver.go:917-946 | Aborted exactly while the key is held; otherwise the context of the stored mount is cancelled and its sections are deleted, and the mount is removed and the answer OK if and only if the cleanup succeeds; one operation of the sequential specification |
| FuseFiles.ReleaseExact | patches/go-fuse-v2.patch:143-195 | From any state a release removes exactly one occurrence of the handle if the handle has an entry and is listed, and otherwise changes nothing; entries stay |
| FuseFiles.CorruptionShrinks | patches/go-fuse-v2.patch:164-193 | With distinct handles the wrong back-pointers after a release are among those before it, without the released one, and the moved handle is right if it has an entry |
| FuseFiles.AllRightKept | patches/go-fuse-v2.patch:183-193 | An index with all back-pointers right stays so |
| FuseFiles.SecondReleaseFindsNothing | patches/go-fuse-v2.patch:148-178 | A second release of a handle finds nothing and changes nothing, whatever the back-pointers are |
| FuseFiles.ReleaseAllInAnyOrder | patches/go-fuse-v2.patch:148-194 | Releasing all open handles in any order succeeds every time and leaves none open, whatever the back-pointers are |
| FuseFiles.RemainingOpen | patches/go-fuse-v2.patch:183-193 | With distinct handles, those open after a release are exactly the others |
| FuseBridge.RawBridge.FindHandle | patches/go-fuse-v2.patch:167-174 | The search finds the first place of the handle, and fails only if it is not listed |
| FuseBridge.RawBridge.Repair | patches/go-fuse-v2.patch:164-181 | The back-pointer is right afterwards, or the handle is not listed and nothing has changed |
| FuseBridge.RawBridge.MoveLastInto | patches/go-fuse-v2.patch:183-193 | Fills the place with the last handle, tells its entry if it has one, and touches no other |
| FuseBridge.RawBridge.ReleaseFileEntry | vendor/github.com/hanwen/go-fuse/v2/fs/bridge.go:976-1028 | From any state no index is out of bounds and no nil entry is followed; the new state is the specified one, and the handle's own entry is returned exactly when something was released |
| FuseBridge.RawBridge.RegisterFile | vendor/github.com/hanwen/go-fuse/v2/fs/bridge.go:847-867 | A freed slot if there is one, else a new one, gets a fresh entry that points at the new end of the list |
| FuseBridge.RawBridge.FreeFile | vendor/github.com/hanwen/go-fuse/v2/fs/bridge.go:953-957 | The handle is appended to the free ones |
| FuseBridge.RawBridge.FirstOpenEntry | patches/go-fuse-v2.patch:35-49 | The first open handle with an entry, skipping stale ones; none only if no open handle has an entry |
| FuseRuns.AlwaysGood | vendor/github.com/hanwen/go-fuse/v2/fs/bridge.go:847-1028 | Over every run in which inodes become known and are forgotten, files are opened and arbitrary handles are released on arbitrary known inodes: no handle is open twice or given out while open, none is lost, every back-pointer is right |
| FuseRuns.ReleaseInRun | patches/go-fuse-v2.patch:164-178 | In every such state a release succeeds exactly for a handle open on that inode, its back-pointer is right so that the search never runs, and a second release finds nothing |
| FuseRuns.RegisterFresh | vendor/github.com/hanwen/go-fuse/v2/fs/bridge.go:847-867 | A handle that is given out is neither open, free nor about to be freed, and all others stay as they were |
| FuseSteps.New | vendor/github.com/hanwen/go-fuse/v2/fs/bridge.go:325-331 | The bridge starts in the first state of every run |
| FuseSteps.Learn | vendor/github.com/hanwen/go-fuse/v2/fs/bridge.go:233 | From a good state a new or forgotten inode becomes known, which is one event of the runs |
| FuseSteps.Forget | vendor/github.com/hanwen/go-fuse/v2/fs/inode.go:434-439 | From a good state an inode is forgotten, with or without open files, which is one event of the runs |
| FuseSteps.Register | vendor/github.com/hanwen/go-fuse/v2/fs/bridge.go:847-867 | From a good state the new state is that of one event of the runs, and the handle that is given out was neither open nor about to be freed |
| FuseSteps.ReleaseEntry | vendor/github.com/hanwen/go-fuse/v2/fs/bridge.go:976-1028 | From a good state something is released exactly when the handle is open on the inode, and the new state is that of one event of the runs |
| FuseSteps.Free | vendor/github.com/hanwen/go-fuse/v2/fs/bridge.go:953-957 | From a good state the end of a Release is one event of the runs |
| VfsCache.ActiveVfs.New | patches/vfs-disable-reuse.patch:7-25 | A VFS that nobody has been given, bound to the mount's own context, with one user and last among the active ones of its name; nothing else changes |
| VfsCache.ActiveVfs.NewReusing | patches/vfs-disable-reuse.patch:17-23 | Under the rule that the patch removes: the first active VFS of the name with the options gets one more user, or a new one is made |
| VfsCache.ActiveVfs.Shutdown | vendor/github.com/rclone/rclone/vfs/vfs.go:375-391 | One user less, and a VFS without users is no longer among the active ones; nothing else changes |
| VfsCache.MountAll | vendor/github.com/rclone/rclone/vfs/vfs.go:199-228 | Over a run of mounts every one has a VFS of its own, bound to its own context |
| VfsRuns.OwnVfsExactly | patches/vfs-disable-reuse.patch:17-23 | In every run of mounts, failures, unmounts and cancellations under that rule, a mount has its own VFS if and only if no VFS of a mount like it is in use when it mounts |
| VfsRuns.MakerExactly | patches/vfs-disable-reuse.patch:17-23 | A mount runs on the context of the last mount like it, up to itself, that found no VFS alike in use |
| VfsRuns.BrokenExactly | patches/vfs-disable-reuse.patch:7-12 | A live mount runs on a cancelled context if and only if that mount is another one and has failed or been unpublished |
| VfsRuns.UsersCounted | vendor/github.com/rclone/rclone/vfs/vfs.go:375-378 | The count of users is the number of mounts given the VFS less the number of their unmounts, repeated ones included |
| VfsRuns.OnceIdleExactly | pkg/rclone/nodeserver.go:769-779 | When no mount is unmounted twice, a mount finds no VFS alike in use if and only if every earlier mount like it has been unmounted |
| VfsRuns.OnceLiveInUse | pkg/rclone/nodeserver.go:769-779 | When no mount is unmounted twice, the VFS of a live mount is in use |
| VfsRuns.RetryShutsAnother | pkg/rclone/nodeserver.go:936-942 | Under the old rule a retried unpublish shuts down the VFS of another mount |
| VfsRuns.PatchedNeverBroken | patches/vfs-disable-reuse.patch:7-25 | Under the patch, in every run, no live mount runs on a cancelled context and none has its VFS shut down |
| MapLoops.OrderIndependentExactly | pkg/rclone/utils.go:303-315 | A renaming loop over a map has one result for all orders if and only if no two keys with different values get the same new name |
| MapLoops.CollectedFrom | pkg/rclone/nodeserver.go:266-275 | For every order the result has exactly the new names, each with the value of a key that got it |
| MapLoops.CollectLoop | pkg/rclone/utils.go:306-312 | The loop visits every key once and collects what the specification collects for its order |
| GoStrings.TrimSpaceExactly | vendor/github.com/unknwon/goconfig/read.go:49 | Exactly the white space at both ends is cut off |
| Flags.ExtractRemoteTypeParams | pkg/rclone/utils.go:303-315 | The parameters of a backend type, for some order of the map |
| Flags.NormalizeNormal | pkg/rclone/utils.go:209-226 | A normalised name has no hyphen and no capital letter, and loses only the leading double hyphen |
| Flags.NormalFixed | pkg/rclone/utils.go:209-226 | Normalisation leaves a name alone if and only if it has no hyphen and no capital letter |
| Flags.NormalizeIdempotent | pkg/rclone/utils.go:209-226 | Normalising twice is normalising once |
| Flags.NormalizeExactly | pkg/rclone/utils.go:209-226 | Normalising cuts two leading hyphens off, turns hyphens into underscores and capitals into small letters, and leaves everything else |
| Flags.NormalizesToNothing | pkg/rclone/nodeserver.go:268-271 | A name is rejected as invalid if and only if it is empty or a bare double hyphen |
| Flags.SanitizeNormal | pkg/rclone/utils.go:174-188 | On normal names the type and its underscore are cut off, in any case of the type, and nothing else changes |
| Flags.BackendNameNormal | pkg/rclone/utils.go:306-312 | Which normal names go to the backend, and under what name |
| Flags.BackendNameExactly | pkg/rclone/utils.go:174-188 | For a normal type t the name t_x goes to the backend as x, other names that begin with t as they are, and no others |
| Flags.ExtractionExact | pkg/rclone/utils.go:303-315 | If every name that begins with the type goes on with an underscore, the backend gets x with value v if and only if there is a parameter type_x with value v, for every map order |
| Flags.ClashExactly | pkg/rclone/utils.go:306-312 | Without that hypothesis two names clash if and only if one of them begins with the type but not with type_, and the other is type_ before it |
| Parameters.MergeVolumeParameters | pkg/rclone/nodeserver.go:199-245 | Secrets overridden by the volume context, for every order |
| Parameters.ExtractPublishParams | pkg/rclone/nodeserver.go:248-278 | Which of the three errors is returned when, and otherwise the reserved parameters and the renamed others |
| Parameters.MissingExactly | pkg/rclone/nodeserver.go:257-263 | A required parameter is missing if and only if there is no remote, or neither configData nor remoteType, that is not empty |
| Parameters.InvalidNameExactly | pkg/rclone/nodeserver.go:266-272 | A request is refused for a name if and only if it has an empty one or a bare double hyphen |
| Parameters.OptionsExactly | pkg/rclone/nodeserver.go:266-275 | The options are exactly the normalised names of all parameters but the four that say what to mount, each with the value of one that has it, for every map order |
| Parameters.GroupDecides | pkg/rclone/nodeserver.go:843-852 | The fsGroup of a mount sets gid, uid and allow_other over both maps, and nothing else; without a mount capability it has no part |
| Parameters.ExtractVolumeMountOptions | pkg/rclone/nodeserver.go:741-761 | The options of the flags, later ones over earlier ones |
| Parameters.FlagRead | pkg/rclone/nodeserver.go:744-758 | A flag name=value sets the normalised name to the value, whatever is in the value, and a flag without an equals sign to true |
| Parameters.LastFlagWins | pkg/rclone/nodeserver.go:744-758 | An option is set if and only if some flag has its normalised name, and has the value of the last such flag |
| Parameters.MountOptions | pkg/rclone/nodeserver.go:828-838 | With a mount capability the request's flags, and read-only after them for a read-only publish; without one none |
| Parameters.MountWith | pkg/rclone/nodeserver.go:441-448 | The options of those flags over the extracted ones |
| Parameters.EffectiveOptions | pkg/rclone/nodeserver.go:828-867 | From the request to the options of the mount for some order, with an error exactly for a missing parameter or an invalid name |
| Parameters.FlagDecides | pkg/rclone/nodeserver.go:829-838 | With a mount capability the option of a flag of the request that no later flag names again has that flag's value, unless it is the read-only of a read-only publish, for every map order |
| Parameters.NoFlagDecides | pkg/rclone/nodeserver.go:829-838 | An option that no flag names, or any option without a mount capability, is the extracted one |
| Parameters.MergeCopy | pkg/rclone/utils.go:366-375 | Both maps, the second over the first |
| Parameters.Precedence | pkg/rclone/nodeserver.go:828-852 | If no two merged names mean the same option: for every map order every option has the value that it should have and no other: true for the read-only of a read-only publish, else that of the last of the request's flags with its name, else of fsGroup, else of the volume context, else of the secrets; and it is absent if none gives it |
| Parameters.ReadOnlyAlwaysWins | pkg/rclone/nodeserver.go:832-837 | A read-only publish with a mount capability has read_only set to true whatever the other inputs are, for every map order |
| GoConfig.Load | vendor/github.com/unknwon/goconfig/read.go:31-175 | The loop of the reader over the lines: comments, sections, quoted and numbered keys, and both errors; what the lines mean is in the rows of IniSections |
| GoConfig.ParseAllConfigRemotes | pkg/rclone/utils.go:245-276 | Every section but DEFAULT with all its keys but the section keeper, or the reader's error |
| GoConfig.CopySection | pkg/rclone/utils.go:261-270 | All keys of a section but its keeper |
| GoConfig.GenerateConfig | pkg/rclone/utils.go:337-352 | Header, type and one line for every parameter, in some order |
| IniRoundTrip.ReadBackExactly | vendor/github.com/unknwon/goconfig/read.go:90-163 | A key and a value come back from the line they are written to if and only if they are line-safe: trimmed, no assignment sign in the key, no comment, section or quote look |
| IniRoundTrip.TextRead | vendor/github.com/unknwon/goconfig/read.go:31-175 | The reader's state after a generated text: one section, its keeper, the type and the parameters |
| IniRoundTrip.RoundTrip | pkg/rclone/utils.go:245-352 | Reading what was written gives exactly one section with the type and the parameters, whatever order the writing loop took |
| IniSections.SectionsRoundTrip | pkg/rclone/utils.go:245-276 | Any number of sections with different names, each with its keys in any order, and keys before the first of them: exactly the sections come back, each with exactly its keys and values, and the keys before them are left out |
| IniSections.LineFrame | vendor/github.com/unknwon/goconfig/read.go:62-165 | A line changes nothing in any section but the one that it is in or begins, and takes no section and no key away |
| IniSections.TextReadExactly | vendor/github.com/unknwon/goconfig/read.go:88-139 | A text is read if and only if no line is malformed and none gives a key to a section without a name |
| IniSections.CommentIgnored | vendor/github.com/unknwon/goconfig/read.go:64-74 | A blank line and a line that begins with # or ; change nothing |
| IniSections.HeaderReadIn | vendor/github.com/unknwon/goconfig/read.go:75-87 | A header begins its section, or goes on with it if it is there, and numbering starts at 1 again |
| IniSections.QuotedKeyRead | vendor/github.com/unknwon/goconfig/read.go:98-120 | A key in quotes, backquotes or triple quotes comes back as it is, spaces and assignment signs included |
| IniSections.QuotedValueRead | vendor/github.com/unknwon/goconfig/read.go:136-156 | A value in backquotes or triple quotes comes back as it is, quotes included |
| IniSections.NumberedRead | vendor/github.com/unknwon/goconfig/read.go:130-134 | A key that is a hyphen gets the next number of its section, and the count goes up by one |
| IniSections.DecimalExactly | vendor/github.com/unknwon/goconfig/read.go:130-134 | The numeral of a number has only digits, no leading zero, and means that number |
| ConfigLoader.RcloneConfig.SetValue | vendor/github.com/rclone/rclone/fs/config/default_storage.go:71-80 | Sets one key of one section, which comes into being if need be |
| ConfigLoader.RcloneConfig.DeleteSection | vendor/github.com/rclone/rclone/fs/config/default_storage.go:41-45 | Removes one section |
| ConfigLoader.RcloneConfig.UpdateRemote | vendor/github.com/rclone/rclone/fs/config/config.go:540-592 | Writes what is stored of each value, an arbitrary value or nothing, or of some of them if it fails; without a type it writes nothing and fails |
| ConfigLoader.LoadRemote | pkg/rclone/nodeserver.go:374-389 | One section is loaded as the specification says for the orders of the two inner loops; a failure leaves other sections alone and deletes nothing |
| ConfigLoader.LoadRcloneConfig | pkg/rclone/nodeserver.go:348-395 | The returned list holds each remote once, each is loaded as specified, and no other section is touched, whether it fails or not |
| ConfigLoads.LoadedIsUnion | pkg/rclone/nodeserver.go:374-390 | Where the section and what is stored of the extracted parameters do not disagree, a loaded section is what was there, the parsed section and what is stored, for every order |
| ConfigLoads.LoadedExactly | pkg/rclone/nodeserver.go:373-394 | The same for every section of a finished load |
| ConfigLoads.OrderFreeExactly | pkg/rclone/nodeserver.go:365-390 | Whatever an update stores for each value, the orders of the loops do not matter if and only if parameters for one option have the same effect and a parameter for an option of the section is stored as the section has it or not at all |
| ConfigLoads.PlainPasswordDiffers | vendor/github.com/rclone/rclone/fs/config/config.go:570-582 | A password that the section and a parameter both give in plain text ends obscured or plain depending on the order |
| ConfigLoads.GeneratedConfigLoads | pkg/rclone/nodeserver.go:327-395 | A volume without configuration data: extracted, written, read back and loaded, its section has exactly the type and the extracted parameters for all orders of all these loops, if and only if every parameter is stored with the value that was written or not at all |
| ConfigRefinement.LoadIsLoadAll | pkg/rclone/nodeserver.go:370-394 | A finished load, with all its loops, is the one atomic step that the protocol takes for it |
| ConfigRefinement.FailedLoadIsPartial | pkg/rclone/nodeserver.go:383-385 | A failed load is the step of a partial load that names only its own remotes |
| Templates.ReplaceWithMap | pkg/rclone/rclone.go:158-165 | One pass for every non-empty key, in some order |
| Templates.OrderDoesNotMatter | pkg/rclone/rclone.go:158-165 | With inert values every order of the passes gives the simultaneous substitution, unmapped variables verbatim |
| Templates.NoDollarInertMap | pkg/rclone/rclone.go:38-40 | Values without a dollar sign are inert for the three variables |
| Templates.ConfluentExactlyWhenInert | pkg/rclone/rclone.go:158-165 | For all templates and orders the passes give the simultaneous substitution if and only if the values are inert |
| Controller.ScanParameters | pkg/rclone/controllerserver.go:92-115 | The scan of the parameters, for some order |
| Controller.Validate | pkg/rclone/controllerserver.go:47-54 | Which error is returned when; none exactly for a named request with capabilities and without a block one |
| Controller.CreateVolume | pkg/rclone/controllerserver.go:46-158 | Succeeds exactly for valid requests, and returns the specified volume ID and context for some orders of its two loops |
| Controller.PromiseExactly | pkg/rclone/controllerserver.go:127-149 | The context has every parameter as it was given and no other, but for remotePath, which is the substituted path unless that is empty; the ID is the remote, the separator and the name, or the name alone without a remote |
| Controller.ScanExactly | pkg/rclone/controllerserver.go:92-115 | If no two parameter names are equal up to case and outer space, for every map order: remote and path are the trimmed values of remote and remotePath or empty, each of the three variables has the trimmed value of its own parameter, and is absent if there is none, and there are no other variables |
| Controller.ContextDecides | pkg/rclone/nodeserver.go:229-256 | Remote, remotePath, configData and remoteType are each the volume context's value, else that of the secret, else empty, whatever fsGroup and flags say |
| Controller.PublishMountsWhatWasPromised | pkg/rclone/nodeserver.go:398-403 | A publish whose context has what a CreateVolume returned, and whatever else the kubelet adds, mounts the remote and the substituted path if and only if that path is not empty; an empty one leaves the template |
| Controller.ReplacedIsSubstituted | pkg/rclone/controllerserver.go:104-125 | For templates of the three variables and metadata without a dollar sign that path has all variables replaced at once, each by the value of its own parameter, for every order of both loops |
| Controller.VolumeIdInjective | pkg/rclone/controllerserver.go:127-137 | For names without the separator two volume IDs are equal if and only if remote and name are |
| Controller.VolumeIdClashExactly | pkg/rclone/controllerserver.go:127-137 | For all names two volumes have the same ID if and only if they are the same, or one's name ends in the separator and the other's name and its remote with the rest of it begins the other's remote |
| Metrics.FindAfter | pkg/rclone/metrics_collector.go:526-530 | The component after the first marker that has one |
| Metrics.ExtractVolumeID | pkg/rclone/metrics_collector.go:523-536 | The component after the CSI marker, else the last component |
| Metrics.ExtractPodID | pkg/rclone/metrics_collector.go:539-548 | The component after the pods marker, else unknown |
| Metrics.ExtractionInvertsKubeletPath | pkg/rclone/metrics_collector.go:523-548 | From a path with the components pods and kubernetes.io~csi, and none of them earlier, come back the pod and the volume that follow them |
| Metrics.ExtractionFallsBack | pkg/rclone/metrics_collector.go:523-548 | In a path without the CSI component before its end the volume is the last component; without pods before its end the pod is unknown |
| Metrics.AggregateMount | pkg/rclone/metrics_collector.go:327-345 | One mount is added to the metrics of its volume, and to no other |
| Metrics.AggregateVolumeStats | pkg/rclone/metrics_collector.go:324-348 | All mounts once, in some order |
| Metrics.AddStatsGauge | pkg/rclone/metrics_collector.go:350-395 | Each gauge grows by exactly what the VFS reports for it, missing parts by nothing, and out-of-space is never taken back |
| Metrics.AggregateExact | pkg/rclone/metrics_collector.go:324-395 | For every order: every gauge of a volume is the sum over exactly the mounts with a VFS whose path is of that volume, out-of-space holds if and only if one reports it, and there are no other volumes |
| Metrics.TotalConserved | pkg/rclone/metrics_collector.go:324-395 | For every order the total over the volumes is the total over the mounts with a VFS |
| Metrics.GaugesOrderIndependent | pkg/rclone/metrics_collector.go:324-348 | Volumes, gauges and out-of-space are the same for all orders |
| Metrics.FirstNameStays | pkg/rclone/metrics_collector.go:335-340 | A volume keeps the remote name of the mount that was added first |
| Metrics.RemoteNameOrderFreeExactly | pkg/rclone/metrics_collector.go:335-340 | The remote name of a volume is the same for all orders if and only if all its mounts with a VFS are of one remote |
| CacheSync.WaitForSync | pkg/rclone/nodeserver.go:557-616 | For all readings of statistics and clock: at most the retry limit; at every retry the VFS had no disk cache in its statistics or an upload in progress or queued, before the deadline; and the wait ends as synced only on statistics whose two counts are absent or not positive |
| CacheSync.SleptClosedForm | pkg/rclone/nodeserver.go:603-608 | The time slept in closed form, for every number of retries, step and cap |
| CacheSync.SleepAtMostThirtySeconds | pkg/rclone/nodeserver.go:574-609 | With the driver's constants never more than 30 seconds, and exactly 30 when every retry is used |
| CacheSync.WaitForVFSCacheSync | pkg/rclone/nodeserver.go:557-616 | With the driver's five retries the same; at most 30 seconds of sleep, all of them exactly when the retries are used up, and the deadline of two minutes ends the wait only if reading statistics takes 100 seconds |

## Left out

- Request validation of publish and unpublish (pkg/rclone/nodeserver.go:113-135), gRPC plumbing, logging, capability lists, unimplemented calls: no properties beyond reading them.
- Creating and mounting the filesystem, unmounting, the kernel and the mounter: arbitrary outcomes of a call. What `setRcloneConfigFlags`, `extractVFSOptions` and `extractMountOptions` do with the options is not modelled.
- `prepareTargetDirectory` is an outcome too: it has no effect on what is modelled.
- GoConfig.ParseAllConfigRemotes: the expansion of `%(name)s` references is a parameter, assumed only to leave values without a reference alone; a byte order mark, section comments and key comments are not modelled.
- ConfigLoader.RcloneConfig.UpdateRemote: a bulk write that may stop anywhere. What it stores for an option is an arbitrary function of remote, option and value; obscuring is random in the code, so another load may store something else. The backend's own configuration, which rclone runs afterwards, is not modelled.
- LockOrder.RpcsNeverDeadlock: covers the three mutexes of the driver, not those inside rclone and the FUSE library.
- NodeServer.Server.UnmountVolume: the wait for uploads is modelled apart, in CacheSync, because it changes nothing of the server.
- NodeServer.Server.NodePublishVolume: one call at a time; what happens when calls interleave is the subject of MountProtocol, whose steps are finer.
- FuseBridge.RawBridge.ReleaseFileEntry: Go follows a nil inode if the kernel names one that it has forgotten; the inode is required here. Wait groups and file objects are left out.
- The rewritten Read, Write, Flush, Fsync and lock operations of the FUSE patch: one nil check each.
- VfsCache.ActiveVfs.Shutdown: the count and the removal are one step here; in the code a mount could be given a VFS between them under the removed rule.
- Metrics.AggregateVolumeStats: sums are unbounded, Go's wrap at 64 bits. A Go map of pointers to metrics is a map of values here, with the same updates.
- CacheSync.WaitForSync: the statistics and the clock are read at arbitrary values; how long reading takes is in the clock readings.
- Case folding and white space beyond ASCII.
- Volume statistics (pkg/rclone/nodeserver.go:1003-1078): arithmetic on numbers from the kernel.
- Helm charts, dashboards, scripts and the HTTP servers.
