# Verified model of the Axern node runtime

A Dafny model of the parts of Axern that decide what a sandbox sees and what a node may
delete: image layers and the overlay made of them, root filesystem snapshots, the
reference-counted layer and chain cache with its crash recovery, mount leases and their
locks, network policies, capability availability, the bootstrap cache and resource
quantities. `dafny verify dfyconfig.toml` checks all of it.

## How it is laid out

| files | subject |
|---|---|
| `Wrappers`, `Sums`, `Graphs`, `Ordering`, `Text`, `Paths` | results, finite sums, walks, ordered lists, texts, archive names |
| `LayerTree`, `LayerView`, `DirectoryMetadata`, `Overlay`, `ChainLowerDir` | trees of layers, applying layers in turn, the metadata search, the overlay of chain lowerdirs |
| `Tar`, `LayerApply` | extracting a layer archive |
| `SnapshotItems`, `RootfsSnapshot`, `SnapshotRoundTrip`, `SnapshotNames` | translating an overlay upper into an OCI layer, extracting it again, and the names that come back |
| `RefStore`, `MountProtocol`, `Recovery`, `Reconciler` | reference counts, interleaved mounts and garbage collection, crash and restart |
| `KeyedLock`, `LeaseStore`, `LeaseProtocol`, `LeaseRuns`, `ReconcileRuns`, `LeaseWorker` | locks by key, leases, their interleavings, desired-set reconciliation |
| `Ports`, `Cidrs`, `CidrRules`, `Domains`, `NetworkPolicy` | network-policy normalisation |
| `Registry`, `Availability` | definition cycles, available capabilities |
| `Recency`, `CacheRuns`, `CacheRestart`, `BootstrapCache` | the bootstrap cache against a plain recency list, failed stores and restarts included |
| `ResourceQuantity` | exact decimal quantities |

Code that changes state is a class or a method with loops, proved equal to a function on
values; the theorems are about those functions. Protocols with threads are state machines
whose steps are the source's atomic actions, and the theorems quantify over every run.

## What the code does differently from what one would expect

- A character device in a layer becomes a device node of number 0:0, which overlayfs reads as
  a whiteout: the entry deletes its own name, and so does every hard link to it.
  `LayerApply.DeletionsExact` says which names an archive deletes, whatever it holds;
  `LayerApply.DeviceEntryDeletesOlderFile` and `LayerApply.LinkedDeviceDeletesOlderFile` give
  inputs.
- Cloning a chain lowerdir recreates each symbolic link by itself, without its owner and as a
  file of its own. The overlay agrees with applying the layers exactly where no foreign
  symbolic link and no symbolic link with a second name is shown
  (`ChainLowerDir.OverlayExactExceptForeignSymlinks`, `ChainLowerDir.ForeignSymlinkLosesOwner`,
  `ChainLowerDir.LinkedSymlinkIsSplit`).
- A snapshot whose upper has a hard link to a directory is translated but cannot be extracted;
  extraction succeeds exactly when there is none
  (`SnapshotRoundTrip.SnapshotLayerRestoresUpper`, `SnapshotRoundTrip.LinkToDirectoryNotExtracted`).
- Zero stamps are whole seconds, so a record can expire up to, but not including, one second
  before a full TTL at zero (`MountProtocol.ExpiryMeasuredFromWholeSecond`,
  `MountProtocol.CollectedBeforeFullTtl`).
- The release of a lease, and the retention of a desired lease, re-read the lease under the
  lock of the key they read first, and do not compare the two keys. When the lease id was
  released and taken again for another image in between, they act on a key they have not
  locked. Every run is safe if and only if no lease id is requested on two keys
  (`LeaseRuns.SafeIffOneKeyEach`; `LeaseRuns.ReboundLeaseLosesMount` and
  `LeaseRuns.ReboundRetentionLosesMount` are the runs that break it), short of a crash between an unmount and the deletion of its lease, every one of which
  can leave a lease without its mount (`LeaseRuns.CrashAfterUnmountBreaks`).
- The release of a stale lease does not compare owners. When a lease id that one owner listed
  was released and taken by another owner in between, the first owner's reconciliation removes
  the second one's lease. It keeps to its own leases in every run if and only if no lease id is
  requested for two owners (`ReconcileRuns.OwnLeasesIffOneOwnerEach`,
  `ReconcileRuns.ReconcileTakesForeignLease`).
- Storing a bootstrap removes the cached file before it links the new one. When the link fails,
  a key that was held stays listed without its file, and the next link of it drops it
  (`CacheRuns.FailedStoreLosesFile`). `CacheRuns.BackedIffNeverLoses` and
  `CacheRuns.MostRecentIffNeverDrops` say exactly which runs keep every file and the most recent
  keys.
- The time by which a restart orders the cache is that of the inode. A file stored under two
  keys has one time, so a restart may exchange them (`CacheRestart.ReadBackIffOneKeyEach`,
  `CacheRestart.SharedFileMayReorder`).
- The comment on `Acquire` says a lease id may never be rebound to another mount. The code
  refuses it only while the lease exists.
- The error branch of `cleanArchivePath` cannot be reached: a rooted name is cleaned first.
- The snapshot translator takes every backslash in a name or link target for a slash, though a
  backslash is an ordinary character of a Linux file name. A file `a\b` is published, and
  extracted, as `b` inside folder `a`, its deletion deletes that `b`, and a name that begins
  with a backslash or `..\` refuses the whole snapshot (`SnapshotNames.BackslashMovesFile`,
  `SnapshotNames.BackslashMovesDeletion`, `SnapshotNames.BackslashRefusesSnapshot`).
- Published names that begin with `.wh.` are read as whiteouts: a surviving file of such a name
  does not come back, and the deletion of a file called `.wh..opq` is written as the opaque
  marker `.wh..wh..opq` (`Paths.WhiteoutNameInverts`). Deletions of other such names do come
  back. `SnapshotNames.ComesBackIffPublishable` says exactly which uppers come back.

## Model

| member | source | states |
|---|---|---|
| `Paths.CleanJoin` | runtime/imagemgr/oci/layer_apply.go:313-323 | cleaning the archive name written for a clean path gives that path back |
| `Paths.WhiteoutNameInverts` | runtime/imagemgr/oci/layer_apply.go:286-299 | reading the ".wh." name written for a path names that path as deleted, for every path but one called .wh..opq, which reads as the opaque marker |
| `Paths.OpaqueMarkerReadsBack` | runtime/imagemgr/oci/layer_apply.go:241-284 | the marker written under a directory is read as hiding the older content of that directory |
| `DirectoryMetadata.SearchFindsAppliedMetadata` | runtime/imagemgr/oci/directory_metadata.go:84-139 | whenever the newest-first search with its opaque and whiteout barriers succeeds, its answer is the metadata shown after applying the roots one by one, whichever way user-only markers are read |
| `DirectoryMetadata.EffectiveDirectoryMetadata` | runtime/imagemgr/oci/directory_metadata.go:84-139 | the loop over roots, newest first, computes that search |
| `DirectoryMetadata.DecideRoot` | runtime/imagemgr/oci/directory_metadata.go:92-137 | the loop over path parts with its running barrier computes one root's verdict |
| `Overlay.OverlayIsFold` | runtime/imagemgr/oci/overlay_mount.go:47-85 | looking a path up component by component in merged directories equals folding the trees top over bottom |
| `Overlay.FoldDownReversed` | runtime/imagemgr/oci/overlay_mount.go:30-37 | the reversed list of lowerdirs stands for the layers oldest first |
| `Overlay.SupportOnlyFillsGaps` | runtime/imagemgr/oci/overlay_mount.go:39-45 | the support directory at the bottom never changes what an image shows |
| `ChainLowerDir.ImplicitDirectoryAncestorBarrier` | runtime/imagemgr/oci/directory_metadata.go:56-82 | the loop over a directory's ancestors finds the strongest opaque barrier above it |
| `ChainLowerDir.ResolveImplicit` | runtime/imagemgr/oci/directory_metadata.go:28-52 | what an implied directory takes: older metadata, its own, or an error |
| `ChainLowerDir.LowerDir.InheritImplicitDirectoryMetadata` | runtime/imagemgr/oci/directory_metadata.go:20-54 | the tree after the loop is the tree with every implied directory resolved, in any order, or an error |
| `ChainLowerDir.LowerDir.MaterializeChainLowerDir` | runtime/imagemgr/oci/chain_lowerdir.go:101-142 | the new tree is the cloned layer with implied directories and the root resolved against the previous roots |
| `ChainLowerDir.ChainFoldsLikeLayers` | runtime/imagemgr/oci/chain_lowerdir.go:9-34 | for every list of layers whose chain builds, folding the lowerdirs equals applying the layers, up to the owners and inodes of symbolic links |
| `ChainLowerDir.OverlayOfChainIsSequentialApplication` | runtime/imagemgr/oci/chain_lowerdir.go:9-142 | the mounted overlay of the chain, support directory included, shows every directory with the owner and mode that applying the layers one after another gives |
| `ChainLowerDir.ChainSharing` | runtime/imagemgr/oci/lowerdir_clone.go:13-62 | two names of the overlay are one file if and only if the layers make them one file and they are not symbolic links |
| `ChainLowerDir.OverlayExactExceptForeignSymlinks` | runtime/imagemgr/oci/lowerdir_clone.go:13-62 | a path is shown exactly as by applying the layers if and only if it is not a symbolic link with a foreign owner or with another name for the same file |
| `ChainLowerDir.ForeignSymlinkLosesOwner` | runtime/imagemgr/oci/lowerdir_clone.go:46-53 | a layer with a symbolic link of another owner for which the overlay differs |
| `ChainLowerDir.LinkedSymlinkIsSplit` | runtime/imagemgr/oci/lowerdir_clone.go:46-53 | a layer with two names for one symbolic link, which the overlay shows as two files |
| `LayerApply.ImplicitDirectoriesExact` | runtime/imagemgr/oci/layer_apply.go:68-100 | after any successful extraction the implied directories are exactly those with no directory entry since their last creation, through replacements, whiteouts and re-creation |
| `LayerApply.FinishedLayerExplained` | runtime/imagemgr/oci/layer_apply.go:146-166 | in the finished layer every directory carries the metadata of its last entry, or the default when it is implied |
| `LayerApply.UnflaggedLayerIsQualified` | runtime/imagemgr/oci/layer_apply.go:246-311 | a layer that reports no user attributes holds only trusted markers |
| `LayerApply.QualifiedLayersReadOneWay` | runtime/imagemgr/oci/directory_metadata.go:149-165 | layers with trusted markers only look the same whether or not user markers are honoured |
| `LayerApply.DeletionsExact` | runtime/imagemgr/oci/layer_apply.go:46-191 | after any successful extraction a path is a deletion if and only if the last entry that governs it is a whiteout of it, a character device where device nodes can be made, or a hard link whose chain of link entries ends at one of these |
| `LayerApply.DeviceEntryDeletesOlderFile` | runtime/imagemgr/oci/layer_apply.go:168-191 | the device 1:3 extracted over an older file removes it |
| `LayerApply.LinkedDeviceDeletesOlderFile` | runtime/imagemgr/oci/layer_apply.go:125-145 | so does a hard link to that device, for the link's name |
| `LayerApply.LayerRoot.EnsureLayerDirectory` | runtime/imagemgr/oci/layer_apply.go:325-350 | missing ancestors are created and marked implied; existing ones are left, and a file in the way is an error |
| `LayerApply.LayerRoot.DiscardImplicitDirectories` | runtime/imagemgr/oci/layer_apply.go:352-358 | a path and everything under it are no longer implied, nothing else changes |
| `LayerApply.LayerRoot.ApplyOciWhiteout` | runtime/imagemgr/oci/layer_apply.go:246-284 | an opaque marker sets the directory's attribute; a deletion replaces the name by a device node or a marked empty file |
| `LayerApply.ExtractEntry` | runtime/imagemgr/oci/layer_apply.go:46-145 | one archive entry, with every error case |
| `LayerApply.ExtractEntries` | runtime/imagemgr/oci/layer_apply.go:36-145 | the loop over entries computes the fold of the single steps, failing at the first error |
| `LayerApply.ExtractLayerTar` | runtime/imagemgr/oci/layer_apply.go:25-166 | the extracted layer is explained by its entries, and is trusted-only unless it says otherwise |
| `SnapshotItems.EndUnique` | runtime/imagemgr/api/rootfs_snapshot.go:202-227 | a chain of hard links ends at one entry at most, however far it is followed |
| `RootfsSnapshot.SnapshotWriter.WriteLinks` | runtime/imagemgr/api/rootfs_snapshot.go:202-227 | the links waiting for a target are written after it and queued, each once |
| `RootfsSnapshot.SnapshotWriter.FlushPendingLinks` | runtime/imagemgr/api/rootfs_snapshot.go:202-227 | the breadth-first flush ends and keeps the counter equal to what waits, whether or not names repeat; when they do not, it leaves nothing waiting for a written name |
| `RootfsSnapshot.SnapshotWriter.Add` | runtime/imagemgr/api/rootfs_snapshot.go:228-329 | one upper entry is written with everything that waited for it, or waits itself; refused exactly when a link would wait beyond the limit |
| `RootfsSnapshot.TotalIsWaiting` | runtime/imagemgr/api/rootfs_snapshot.go:287-297 | the total of the pending lists is the number of names that wait |
| `RootfsSnapshot.CounterExact` | runtime/imagemgr/api/rootfs_snapshot.go:202-329 | between entries, what waits is exactly the links whose chain does not end yet, the counter counts them, and a name is resolved exactly when its chain ends |
| `RootfsSnapshot.WrittenMeansChainEnd` | runtime/imagemgr/api/rootfs_snapshot.go:190-227 | a written name is a deletion if and only if its chain ends at a 0:0 device, in whatever order links and targets arrived |
| `RootfsSnapshot.TranslateUpper` | runtime/imagemgr/api/rootfs_snapshot.go:171-330 | for any entries: what is written holds every entry and every opaque marker, each after what it needs; when no two entries have one path, translation succeeds exactly when all are supported, the limit holds throughout and every link's chain ends, and writes each entry once |
| `RootfsSnapshot.WriteOciRootfsSnapshotLayer` | runtime/imagemgr/api/rootfs_snapshot.go:171-330 | the same for the headers read and written, for any archive |
| `RootfsSnapshot.OneOutputPerInput` | runtime/imagemgr/api/rootfs_snapshot.go:228-329 | a translation holds one entry per input entry and one marker per opaque directory, and nothing else |
| `SnapshotRoundTrip.SnapshotLayerRestoresUpper` | runtime/imagemgr/oci/layer_apply.go:25-166 | extracting any translation succeeds if and only if no hard link names a directory, and then gives back the items the translator read: names, nodes, shared inodes, whiteouts at exactly the deleted names, opaque attributes at exactly the opaque directories |
| `SnapshotRoundTrip.WrittenLayerRestoresUpper` | runtime/imagemgr/api/rootfs_snapshot.go:171-330 | the same for the layer written from an upper archive, by the names the translator gives its entries |
| `SnapshotNames.ComesBackIffPublishable` | runtime/imagemgr/api/rootfs_snapshot.go:171-338 | for every archive of an overlay upper: it is written, extracted and gives back names, whiteouts, nodes and link ends by the archive's own names if and only if no name or link target has a backslash, no surviving name begins with .wh., no deletion is of .wh..opq, no link names a directory, and links never wait beyond the limit |
| `SnapshotNames.BackslashIsLost` | runtime/imagemgr/api/rootfs_snapshot.go:332-338 | with a backslash in any name or link target the upper never comes back, repeated paths included |
| `SnapshotNames.OddNameIsLost` | runtime/imagemgr/oci/layer_apply.go:246-299 | no archive at all extracts to an upper in which a surviving name begins with .wh. or .wh..opq is deleted |
| `SnapshotNames.BackslashMovesFile` | runtime/imagemgr/api/rootfs_snapshot.go:332-338 | folder a and file a\b are extracted as a file b in folder a |
| `SnapshotNames.BackslashMovesDeletion` | runtime/imagemgr/api/rootfs_snapshot.go:255-267 | folder a and the deletion of a\b are extracted as a deletion of b in folder a |
| `SnapshotNames.BackslashRefusesSnapshot` | runtime/imagemgr/api/rootfs_snapshot.go:332-338 | an entry whose name begins with a backslash, or with two dots and a backslash, refuses the whole snapshot |
| `SnapshotRoundTrip.LinkToDirectoryNotExtracted` | runtime/imagemgr/api/rootfs_snapshot.go:287-319 | the two headers of an upper with a hard link to a directory: they are read, translatable and translated, and what is written is refused by extraction |
| `RefStore.MetadataStore.IncrementRef` | runtime/imagemgr/oci/store_layers.go:37-66 | one more reference, zero stamp cleared, last use stamped; an unknown record is an error and changes nothing |
| `RefStore.MetadataStore.DecrementRef` | runtime/imagemgr/oci/store_layers.go:68-103 | one reference fewer but never below zero, stamped when zero is reached; an unknown record is an error |
| `RefStore.MetadataStore.RollbackReservedRefs` | runtime/imagemgr/oci/reconcile_txn.go:30-50 | the loop releases each listed reference once, repetitions included, skipping unnamed and unknown ones |
| `RefStore.ReleasedCounts` | runtime/imagemgr/oci/reconcile_txn.go:30-50 | a rollback lowers each count by its occurrences in the list, as far as zero, and keeps zero stamps marking zero |
| `RefStore.MetadataStore.TryDeleteCandidate` | runtime/imagemgr/oci/gc_helpers.go:22-74 | a candidate goes exactly when its record, read again, is still unreferenced and old enough |
| `RefStore.MetadataStore.CollectByTtl` | runtime/imagemgr/oci/gc_ttl.go:12-74 | exactly the collectable candidates go, from a stale list too, and their number is reported |
| `MountProtocol.StepKeepsInv` | runtime/imagemgr/oci/mount.go:203-256 | every atomic step of concurrent mounts, rollbacks, unmounts and collection, one operation per cache key at a time, keeps: counts equal records plus reservations, whatever is held is present, zero stamps mark zero, work under a lock fits its operation |
| `MountProtocol.DecrementNeverAtZero` | runtime/imagemgr/oci/store_layers.go:84-90 | no decrement of a held reference ever meets a count of zero |
| `MountProtocol.CollectionIsSafe` | runtime/imagemgr/oci/gc_helpers.go:22-74 | what collection removes is named by no mount record and held by no attempt in flight, and under a TTL was last counted at least the TTL less one second before |
| `MountProtocol.ExpiryMeasuredFromWholeSecond` | runtime/imagemgr/oci/gc_ttl.go:76-118 | a record expires exactly when the TTL has passed since the second in which its count reached zero |
| `MountProtocol.CollectedBeforeFullTtl` | runtime/imagemgr/oci/gc_ttl.go:76-96 | a count that reaches zero at 1.9 s is collected at 11 s under a TTL of 10 s |
| `Recovery.ReconcileSettles` | runtime/imagemgr/oci/reconcile.go:10-161 | from any state whatsoever one reconciliation leaves no transaction, kernel mounts equal to records, everything recorded present and every count exact; the surviving mounts are characterised exactly |
| `Recovery.ReconcileIdempotent` | runtime/imagemgr/oci/reconcile.go:10-161 | reconciling again, at any later time, changes nothing |
| `Recovery.RestartRestoresInvariant` | runtime/imagemgr/oci/reconcile_txn.go:52-111 | a crash at any point of any run, with any subset of the kernel mounts left, followed by reconciliation, restores the protocol's invariant |
| `Recovery.RecordedMountSurvives` | runtime/imagemgr/oci/reconcile.go:68-118 | a recorded mount that is still mounted is kept by the restart |
| `Recovery.MountedOperationCompletes` | runtime/imagemgr/oci/reconcile_txn.go:69-104 | an attempt that had mounted but not recorded is completed by the restart |
| `Recovery.EveryLifeCountsExactly` | runtime/imagemgr/oci/layer_extract.go:68-132 | with one operation per cache key at a time, in every state of every interleaving of workers, mounts, failures, rollbacks, collection, crashes and restarts, each count is its occurrences in records plus reservations, and whatever is referenced is there |
| `Reconciler.CountRefs` | runtime/imagemgr/oci/reconcile.go:103-108 | the loops over a record's layers and chains add each occurrence once |
| `Reconciler.ValidateRefs` | runtime/imagemgr/oci/reconcile_txn.go:113-137 | true exactly when there is a layer and every layer and chain listed is recorded and present |
| `Reconciler.Manager.DropStaleRecords` | runtime/imagemgr/oci/reconcile.go:18-48 | exactly the records whose directory exists are kept |
| `Reconciler.Manager.CleanupOrphanChainDirs` | runtime/imagemgr/oci/reconcile_cleanup.go:75-90 | chain directories without a record go, layer directories stay |
| `Reconciler.Manager.RecoverMountTransactions` | runtime/imagemgr/oci/reconcile_txn.go:52-111 | no transaction is left; those mounted, complete and not yet recorded become records, in whatever order they are listed |
| `Reconciler.Manager.RestoreMounts` | runtime/imagemgr/oci/reconcile.go:65-118 | records that are not mounted or incomplete go; the rest become the containers and are counted |
| `Reconciler.Manager.CleanupOrphanManagedMounts` | runtime/imagemgr/oci/reconcile_cleanup.go:11-27 | kernel mounts without a record go |
| `Reconciler.Manager.FixCounts` | runtime/imagemgr/oci/reconcile.go:124-157 | every wrong count is rewritten to the counted one with its stamps |
| `Reconciler.Manager.ReconcileState` | runtime/imagemgr/oci/reconcile.go:10-161 | the whole pass computes the reconciled state and settles it |
| `KeyedLock.MutualExclusion` | runtime/imagemgr/oci/locks.go:3-67 | in every interleaving, whatever entries come and go: at most one holder per key, counts equal to the threads registered, and no entry for a key nobody uses |
| `KeyedLock.RefinesPlainLock` | runtime/imagemgr/api/mount_lease.go:93-113 | locking takes a free key, unlocking frees the thread's own key, and creating or deleting entries changes no owner: the table is one plain lock per key |
| `KeyedLock.NeverStuck` | runtime/imagemgr/oci/locks.go:13-22 | while a thread waits for a key it can lock it, or the holder of that key can unlock |
| `KeyedLock.LockTable.Ask` | runtime/imagemgr/oci/locks.go:4-11 | the critical section that finds or creates an entry and counts it |
| `KeyedLock.LockTable.Leave` | runtime/imagemgr/nydus/bootstrap_cache_root.go:127-135 | the critical section that uncounts an entry and deletes it at zero |
| `LeaseStore.LeaseCount` | runtime/imagemgr/internal/mountstore/store.go:218-233 | the loop counts the leases of one mount |
| `LeaseRuns.StepKeeps` | runtime/imagemgr/api/mount_lease.go:130-224 | when requests put no lease on two keys, every step but an untimely crash keeps: leases stay on their keys, a mount is recorded exactly while leased, a lease not being released is mounted, and a recorded mount is unmounted only between unmount and deletion, under its lock |
| `LeaseRuns.EveryBoundRun` | runtime/imagemgr/api/mount_oci.go:50-117 | in every interleaving of such requests with releases, retries, desired-set reconciliations and timely crashes, on any number of keys, every lease not being released has its resource mounted and a resource is recorded if and only if somebody leases it |
| `LeaseRuns.SafeIffOneKeyEach` | runtime/imagemgr/api/mount_lease.go:130-165 | for every set of mount requests: all its runs are safe if and only if no lease id is requested on two keys |
| `LeaseRuns.OneKeyIsSafe` | runtime/imagemgr/api/mount_oci.go:52-54 | requests for one key are safe in every run, whatever their leases and owners |
| `LeaseRuns.UnmountIsLast` | runtime/imagemgr/api/mount_lease.go:148-164 | an unmount finds its lease alone on the key, a rollback finds no lease, and both hold the key's lock |
| `LeaseRuns.CrashAfterUnmountBreaks` | runtime/imagemgr/api/mount_lease.go:157-164 | every crash between an unmount and the deletion of its lease leaves a lease that is unprotected once its owner wants it again |
| `LeaseRuns.ReboundLeaseLosesMount` | runtime/imagemgr/api/mount_lease.go:134-147 | for any lease id and any two keys: the two requests and one release reach a lease without its mount |
| `LeaseRuns.ReboundRetentionLosesMount` | runtime/imagemgr/api/mount_lease.go:41-51 | for any lease id, owner and two keys: the two requests, one release and one retention reach a lease without its mount |
| `ReconcileRuns.OwnLeasesIffOneOwnerEach` | runtime/imagemgr/api/mount_lease.go:37-62 | for every set of mount requests: in all its runs each reconciliation changes its own owner's leases only if and only if no lease id is requested for two owners |
| `ReconcileRuns.ReconcileTakesForeignLease` | runtime/imagemgr/api/mount_lease.go:130-165 | for any lease id and two owners, on one key or two: a listed release unmounts and removes the other owner's lease |
| `ReconcileRuns.ReconcileInterleaved` | runtime/imagemgr/api/mount_lease.go:13-64 | when leases keep their key and owner, a reconciliation interleaved with any requests on other leases and with unmounts and retries of its stale ones, failing or not, whose listed leases are all visited and whose own unmounts succeed, leaves its owner exactly the old leases that are desired, none being released |
| `LeaseWorker.Worker.Acquire` | runtime/imagemgr/internal/mountstore/store.go:64-125 | one idempotent lease; refused for another mount or owner; says whether it was created |
| `LeaseWorker.Worker.RetainLease` | runtime/imagemgr/internal/mountstore/store.go:136-162 | a lease of this owner is no longer being released; refused for another owner |
| `LeaseWorker.Worker.ReleaseLease` | runtime/imagemgr/internal/mountstore/store.go:235-268 | the lease goes; with its mount only when the loop finds no other lease on it |
| `LeaseWorker.Worker.Release` | runtime/imagemgr/api/mount_lease.go:130-165 | a shared mount loses one lease; the last lease takes the mount along, or is left marked when unmounting fails |
| `LeaseWorker.WalkEnds` | runtime/imagemgr/api/mount_lease.go:38-63 | a walk over all listed leases without error leaves the owner exactly its old leases that are desired |
| `LeaseWorker.Worker.ReconcileMountLeases` | runtime/imagemgr/api/mount_lease.go:13-64 | running by itself, succeeds if and only if every lease of the owner has its record and every vacated mount unmounts; then the owner keeps exactly old leases that are desired, vacated mounts go; other owners are not touched; the counters are exact |
| `Ports.CanonicalUnique` | lib/go/networkpolicy/policy.go:291-316 | two sorted, disjoint, non-adjacent lists that cover the same ports are equal |
| `Ports.MergeInPlace` | lib/go/networkpolicy/policy.go:305-315 | the merge that overwrites the sorted array computes the merge of its old content |
| `Ports.MergeAllMerges` | lib/go/networkpolicy/policy.go:305-315 | merging sorted valid ranges gives a canonical list of the same ports |
| `Ports.NormalizePorts` | lib/go/networkpolicy/policy.go:291-316 | fails exactly on an invalid range; otherwise the canonical list of exactly the same ports |
| `Cidrs.MaskedNotMapped` | lib/go/networkpolicy/policy.go:249-256 | masking never makes an IPv4-mapped address of one that was not |
| `Cidrs.FindInside` | lib/go/networkpolicy/policy.go:318-325 | true exactly when a prefix lies inside one of the listed ranges |
| `CidrRules.GroupRules` | lib/go/networkpolicy/policy.go:244-269 | fails exactly when a rule has a bad prefix, protocol or no ports; otherwise groups the ranges by masked prefix and protocol |
| `CidrRules.NormalizeCidrs` | lib/go/networkpolicy/policy.go:243-289 | fails exactly when some rule is not acceptable; otherwise one acceptable rule per masked prefix and protocol, in order, granting exactly the same prefix, protocol and port triples |
| `CidrRules.CanonicalRulesUnique` | lib/go/networkpolicy/policy.go:270-288 | canonical lists that grant the same are equal |
| `CidrRules.SameGrantsSameResult` | lib/go/networkpolicy/policy.go:243-316 | lists that grant the same normalise to the same list: order, repetition, range splitting and map iteration make no difference |
| `CidrRules.CidrsIdempotent` | lib/go/networkpolicy/policy.go:243-289 | a normalised list normalises to itself |
| `Domains.DomainIdempotent` | lib/go/networkpolicy/policy.go:203-236 | a normalised domain rule, wildcard or not, normalises to itself |
| `Domains.NormalizeDomains` | lib/go/networkpolicy/policy.go:186-201 | fails exactly when a rule does; otherwise the normalised rules, each once, in ascending order |
| `Domains.SameListSameResult` | lib/go/networkpolicy/policy.go:186-201 | order and repetition of domain rules make no difference |
| `NetworkPolicy.Normalize` | lib/go/networkpolicy/policy.go:42-93 | every mode and policy kind, with its errors, in terms of the domain and prefix results |
| `NetworkPolicy.NormalizeKeepsMeaning` | lib/go/networkpolicy/policy.go:106-149 | the canonical policy has the enforcement mode, deny-all status, need for the egress daemon and need for a resolver of the policy it came from |
| `NetworkPolicy.NormalizeIdempotent` | lib/go/networkpolicy/policy.go:42-93 | a canonical policy is its own canonical form |
| `Registry.Search.Visit` | lib/go/nodecapability/definitions.go:152-172 | finishes a key with all it needs, or has found a cycle; marks are left as they were |
| `Registry.CheckCycles` | lib/go/nodecapability/definitions.go:150-178 | reports an error if and only if the definitions have a dependency cycle, for any map, dangling keys included, in whatever order the keys are visited |
| `Availability.Searcher.Available` | lib/go/nodecapability/snapshot.go:138-162 | the recursive search terminates on any map, restores its marks and computes the search over the keys on its way |
| `Availability.AvailableExact` | lib/go/nodecapability/snapshot.go:138-162 | available if and only if every chain of dependencies, however long, ends in a valid observation and never repeats a key |
| `Availability.AvailableUntilFirstExpiry` | lib/go/nodecapability/evidence.go:90-119 | once available, a capability stays so exactly until the first expiry among the observations it depends on |
| `Availability.NoDependencyIsTooOld` | lib/go/nodecapability/evidence.go:107-118 | while it is available, no observation it depends on is older than its definition's maximum validity |
| `Availability.AvailabilityIsOneInterval` | lib/go/nodecapability/snapshot.go:97-179 | the times at which a snapshot makes a capability available are exactly one half-open interval; it has an end if and only if an observation depended on is limited, and then ends no later than the earliest such observation's time plus its maximum validity |
| `Availability.ObservationsByKey` | lib/go/nodecapability/snapshot.go:112-136 | fails exactly on an unknown key, a repeated key or a repeated extension name; otherwise the index of the observations |
| `Availability.AvailableObservation` | lib/go/nodecapability/snapshot.go:97-110 | finds an observation if and only if the snapshot is published and the key is grounded in it |
| `Recency.RecentIsByLastAccess` | runtime/imagemgr/nydus/bootstrap_cache_root.go:54-87 | from any list without repetitions, the recency list is exactly the keys listed or accessed, by descending position of their last access |
| `CacheRuns.BackedIffNeverLoses` | runtime/imagemgr/nydus/bootstrap_cache_files.go:55-70 | throughout a run every held key has its file if and only if no store of a held key removes the cached file and fails to link the new one |
| `CacheRuns.FailedStoreLosesFile` | runtime/imagemgr/nydus/bootstrap_cache.go:134-137 | storing a held key again from a file that is not there leaves it held without its file, and its next link drops it |
| `CacheRuns.MostRecentIffNeverDrops` | runtime/imagemgr/nydus/bootstrap_cache.go:93-100 | throughout a run the list is the most recent keys, as many as fit, most recent first, if and only if no link finds the file of a held key missing |
| `CacheRuns.CacheHoldsMostRecent` | runtime/imagemgr/nydus/bootstrap_cache_root.go:73-105 | after any run of stores, failed ones included, and links in which no store loses a held file, the list is the most recent keys |
| `CacheRuns.ListByLastAccess` | runtime/imagemgr/nydus/bootstrap_cache_root.go:73-114 | after any run whatsoever the list is by descending position of last access |
| `BootstrapCache.CacheRoot.EnsureInitialized` | runtime/imagemgr/nydus/bootstrap_cache_root.go:14-71 | reading the directory keeps the newest files that fit, newest first, and deletes the others |
| `BootstrapCache.CacheRoot.EvictLocked` | runtime/imagemgr/nydus/bootstrap_cache_root.go:89-105 | the list is cut to the capacity, and exactly the keys cut off are reported |
| `BootstrapCache.CacheRoot.RecordAccess` | runtime/imagemgr/nydus/bootstrap_cache_root.go:73-87 | table and list keep agreeing; the key comes first and the last ones go |
| `BootstrapCache.CacheRoot.EnsureHardLink` | runtime/imagemgr/nydus/bootstrap_cache_files.go:55-70 | the same file is left alone; otherwise the old file is removed and then the new one linked, each of which may fail |
| `BootstrapCache.CacheRoot.Store` | runtime/imagemgr/nydus/bootstrap_cache.go:119-159 | one store event, with its failures: a key stored is held, first and has its file, evicted files are deleted, and every held key keeps its file unless the key was held and its file was removed but not replaced |
| `BootstrapCache.CacheRoot.Link` | runtime/imagemgr/nydus/bootstrap_cache.go:72-117 | one link event: a hit moves the key to the front, a miss changes nothing, an entry whose file vanished is dropped |
| `CacheRestart.RestartReadsBack` | runtime/imagemgr/nydus/bootstrap_cache_root.go:26-57 | after any run with a rising clock in which each file is stored under one key, a new root holds the old list less the keys without files, in the same order; it is the whole list if and only if every held key has its file |
| `CacheRestart.ReadBackIffOneKeyEach` | runtime/imagemgr/nydus/bootstrap_cache_root.go:50-57 | from an empty directory, every such run reads back if and only if no file is stored under two keys or only one file is kept |
| `CacheRestart.SharedFileMayReorder` | runtime/imagemgr/nydus/bootstrap_cache_files.go:72-74 | two keys stored from one file, which a restart may list in the other order |
| `ResourceQuantity.ParseScaledResourceDecimal` | sdk/go/resources.go:91-133 | the method with its digit loop computes the parsed value, with every error case |
| `ResourceQuantity.ParsesExactly` | sdk/go/resources.go:91-133 | a decimal number is accepted if and only if its real value times the scale is a whole number within int64, and then gives that number |
| `ResourceQuantity.AcceptedIsDecimal` | sdk/go/resources.go:91-121 | whatever is accepted is, spaces aside, an optional plus, digits and optionally a point with more digits |
| `ResourceQuantity.SameValueSameResult` | sdk/go/resources.go:91-133 | the result depends on the number alone, not on how it is written |
| `ResourceQuantity.TrailingZero` | sdk/go/resources.go:118-128 | one more zero at the end of a fraction changes nothing |
| `ResourceQuantity.SplitMemoryQuantity` | sdk/go/resources.go:63-89 | the loop over the unit table finds the first unit the text ends with |
| `ResourceQuantity.UnitScales` | sdk/go/resources.go:48-89 | a unit of the table, in any case, at the end of a text is read as its own factor times the number before it, with or without spaces between: no other unit is mistaken for it |
| `ResourceQuantity.CpuMilliReadsBack` | sdk/go/resources.go:19-46 | parsing the milli-core text of n gives n |
| `ResourceQuantity.CpuCoresReadBack` | sdk/go/resources.go:14-46 | parsing the core text of n gives 1000 n, or is refused exactly when that exceeds int64 |
| `ResourceQuantity.MemoryBytesReadBack` | sdk/go/resources.go:24-61 | parsing the byte text of n gives n |

## Left out

- Error texts, log lines and metrics: an error is an error.
- File contents, sizes, modification times of layers and the bytes of archives: contents are opaque numbers, archives are lists of headers.
- The size limits of the snapshot writer: they count the raw bytes of the archives read and written, which the model does not have.
- The OCI image specification's own account of applying a changeset: extraction is stated by what the last entry governing a path leaves there, and layers by folding what was extracted; entries and whiteouts of one name in one archive, on which the specification and the order of extraction differ, are not compared with it.
- How the kernel's overlayfs treats an opaque attribute on the root of a lowerdir, and that it honours the whiteout attribute of a regular file only in a directory marked for it: the model gives every directory the same rule.
- Overlay.OverlayIsFold: does not cover a mount of one lowerdir without the support directory, which is a bind mount and shows markers as files; the manager always adds the support directory.
- Extended attributes other than the opaque one: extraction drops them.
- A clock that goes back: times are taken never to decrease.
- LayerApply.ExtractEntry: a hard link whose target passes through a symbolic link is refused; the source leaves that to the operating system.
- Ownership and attribute errors that extraction and cloning ignore: they are taken not to happen.
- Paths stored in layer, chain and mount records: they are functions of the digest, the chain id or the key, so the branches that compare a stored path with the computed one are not modelled.
- Layers and chains share one kind of reference in the protocol; their separate buckets differ in nothing but the name.
- Failing store commits and manager shutdown during extraction: transactions succeed, and a shutdown is a crash.
- A mount list that is not authoritative: reconciliation then keeps everything, which is the easy case.
- The order in which disk pressure picks candidates: collection may remove any collectable candidate at any time, which covers every order.
- Mount requests for an image that is already mounted by the same manager: they take the existing container and touch no count.
- The Nydus route of a mount request: the daemon is mounted before its key is locked.
- Checks of lease ids, owners, evidence, boot ids and extension names: texts with no state.
- RootfsSnapshot.WriteOciRootfsSnapshotLayer: does not say when an archive in which two entries clean to one path is refused, because such an upper does not come back either way; an overlay upper has two such entries only through a backslash, as with a\b beside a/b.
- MountProtocol.StepKeepsInv: takes one operation per cache key at a time as given. The manager's own locks are by image URL, or by cache key for an imported image, and an unmount always locks the URL; one operation per key comes from the lock by mount key that every request takes first.
- Domains.NormalizeDomain: texts are sequences of code points, so the UTF-8 check always passes; name conversion is a parameter that yields letters, digits, hyphens and dots and leaves its own lower-cased results alone.
- CidrRules.NormalizeCidrs: reading and writing prefixes are parameters that read back what was written; a nil rule is a rule whose prefix does not parse and a nil range is the range 0-0.
- BootstrapCache.CacheRoot: list elements are known by their keys, the environment sidecar files are not modelled, the directory is read once, and touching a file or deleting an evicted one succeeds; eviction by one thread while another stores is outside the serial statement.
- LeaseWorker.Worker.Acquire: does not compare the type, mount point and image of a recorded mount with those of the request, because a mount is known by its key alone.
- ResourceQuantity.SplitMemoryQuantity: lower-casing covers ASCII letters.
- Resolving requirements against definitions, and the remaining rules of the definition registry: case checks on single records.
- Installers, gRPC and HTTP plumbing, the image filesystem daemon, registry access and authentication.
