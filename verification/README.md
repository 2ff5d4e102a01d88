# Verified model of the layered pack store

A child of the store is an ordered stack of immutable packs, oldest first, under a writable upper. This
project models how that stack changes and proves that readers do not notice: commits append packs, a level
planner chooses which newest packs to merge, a two-pass tree merge with whiteouts builds one replacement,
manifests are swapped, packs travel to cold storage and back, and node-local writers publish and commit
through a shared lock and mirror. It also covers which child owns a path and where a write lands.

To verify the project with Dafny 4.11, run `dafny verify dfyconfig.toml`.

## How the files fit together

- **Trees, Layers, Folding**: directory trees as maps from paths to entries; layers with the markers of the
  OCI Image Format Specification ("Image Layer Filesystem Changeset", sections "Whiteouts" and "Opaque
  Whiteout"); `View` folds a stack; `Folding` says exactly when one merged layer can stand in for a run.
- **MergeWalk, Compaction, Witnesses**: the merge as the code does it, path by path over a mutable tree,
  proved equal to the ideal merge minus exactly what the walk loses, and raising exactly when it raises; then
  the exact condition under which a compaction is invisible, a discipline on commits that guarantees it, and
  families of packs that break each part of the condition.
- **Levels, RewriteBound, Publish**: the planner, its minimality and its bounds, and the manifest swap.
- **Reader**: overlay lookup, component by component and topmost first, against bottom-up materialisation.
- **Daemon, Visibility, Guards**: whole runs of one shared-nfs child: writes, commits, compactions; what readers see;
  and what base and budget guards leave alone.
- **Writers, WriterRuns, Provenance**: the single-writer protocol as interleaved steps with crashes and publishing
  threads; runs in which it lets something through; and exactly when an upper is published under the generation
  it was written over, when a mount shows the pending state, and which writes can still be committed.
- **Mounts, MirrorDir**: the mount tables of nodes that share lock files; crash-atomic publication of a mirror.
- **Cold, ColdSafety, ColdOutcomes**: archive and recall as sequences of single effects, cut by a crash after any of
  them; what holds at every cut, and what they record and leave behind when they finish or raise.
- **Lifecycle**: one machine for all of it: writes, commits, compactions, archives and recalls over bytes,
  manifest and upper; it refines the two models above, and its visible tree is at every moment that of an
  append-only log, exactly if no compaction loses or uncovers anything.
- **Boundaries, Routing, Hpc**: path ownership, overlay names, and the staged lookup.
- **Packs, Names**: pack records; generated file names and object keys and why they never clash.

## Results that are not what one would hope

The model keeps the code as it is; where a promise fails, the exact condition or the failing family is proved.

- Compaction is invisible in every stack if and only if the walk lost nothing for good and no file that hid deeper
  content was replaced by a directory inside the run; over given packs, if and only if it lost nothing and uncovered
  nothing of them. Deleting and recreating a file such as `.bashrc` in two commits leaves, after a first compaction,
  file and whiteout side by side; the next compaction deletes the file
  (`Witnesses.RecompactionLosesRecreatedFile`). The comment above the merge promises whiteouts without this loss.
- A merge raises not only for an opaque directory over a file but also for a plain directory over a symlink that
  dangles in the scratch directory (`Witnesses.DirOverLinkRaises`).
- A stack of one pack is mounted read-only without an overlay, so its whiteout files are visible, and compacting
  a whole stack into one pack can change what read-only readers see (`Witnesses.WholeStackCompaction`).
- A mirror can be published by a thread whose record's lock was released long before, while another node holds
  the lock; the heartbeat raises exactly then, and the exception is swallowed (`Writers.HeartbeatTells`,
  `WriterRuns.PublishesWithoutLock`).
- A lock file whose holder crashed, or failed between taking it and mounting, stays for good, since nothing asks for
  stale locks to be stolen (`Writers.StrandedByDeath`, `Writers.StrandedForGood`).
- A publication labels whatever upper it finds with its record's generation, so the check that a commit's base is
  the present generation does not stop an upper written over an older one. The label is true if and only if the
  mount has written or started with an upper that fits (`Provenance.MountKeepsLabels`). A writer that loaded its
  manifest before another commit has its own commit refused, but the next mount relabels the upper and it is
  committed after all (`WriterRuns.StaleWriteLandsLater`); a late publication does the same
  (`WriterRuns.LatePublicationCommitsElsewhere`).
- An upper can be committed a second time for as long as some node or the mirror still has it
  (`Provenance.CommittableWhileItLives`). A commit removes the mirror and the committing node's upper only, and an
  exception between the manifest write and the end of the cleanup leaves even those (`Provenance.CleanupDecides`,
  `WriterRuns.UpperCommittedTwice`).
- A node's own upper takes precedence over a newer mirror, so a mount need not show the pending state, and its next
  publication replaces it (`Provenance.MountShowsPending`, `WriterRuns.OlderUpperReplacesNewer`).
- Nothing stops a commit to a cold child, after which no recall completes
  (`ColdSafety.CommitWhileColdStrandsTheChild`).
- The staged lookup strips slashes where owner resolution normalises, so a path with a "." or empty piece slips
  past exclusions behind that piece (`Hpc.LookupOnAnyPath`, `Hpc.DottedPathSlipsPast`); and it never finds a
  one-character boundary (`Hpc.OneCharacterBoundaryIsShadowed`).
- The empty id shares its namespace with the id "child" (`Routing.NamesCollideExactly`).

## Model

| member | source | states |
|---|---|---|
| Trees.StrLessMeans | src/ccc_storage_mountd/workers/compaction.py:230 | the order of the walk on equally deep paths is lexicographic by code points: at the first difference the smaller character, or the end, comes first |
| Trees.PartsLessMeans | src/ccc_storage_mountd/workers/compaction.py:222 | the order of the opaque pass is that order taken component by component |
| Layers.SortsFirstOnNames | src/ccc_storage_mountd/workers/compaction.py:230-242 | a name comes before its whiteout exactly if at its first departure from ".wh." it has the smaller character or ends; never if it starts above ".", always if it starts below |
| Layers.MergeIsLayer | src/ccc_storage_mountd/workers/compaction.py:212-243 | a merge of two layers is again a layer: every entry in a directory, markers are files that name real entries |
| Folding.FoldingIsTransparent | src/ccc_storage_mountd/workers/compaction.py:246-278 | replacing a run of layers by its ideal merge leaves the view of every stack around it (any lower, any newer layers) unchanged if and only if no file of a layer is forgotten: replaced by a later layer's directory that survives the run while no surviving marker hides what lies below it |
| Folding.FoldingOverView | src/ccc_storage_mountd/workers/compaction.py:212-243 | over one given view the merge shows what the run shows if and only if every path of the view that the run hides is still held or hidden by something that survives the run |
| Folding.ForgottenMeans | src/ccc_storage_mountd/workers/compaction.py:233-237 | a file of layer i is forgotten, as read off the layers, exactly when the run's merge has a directory in its place that no marker of the merge shields |
| Folding.KeepsLeavesInMerge | src/ccc_storage_mountd/workers/compaction.py:212-243 | so the condition on the layers and the one on their merge agree for every run |
| Folding.ApplyAllPointwise | src/ccc_storage_mountd/workers/compaction.py:212-243 | path by path, a view under a run shows the merged entry of the run, or the older entry if no layer of the run hides it |
| Folding.KeptHiding | src/ccc_storage_mountd/workers/compaction.py:215-221 | when no file was forgotten, the merge hides exactly the paths some layer of the run hides: whiteouts are kept as durable tombstones |
| Folding.ForgottenShows | src/ccc_storage_mountd/workers/compaction.py:233-237 | whenever the merge forgot a file, a concrete older view tells the merge from the run |
| Folding.MergeAloneShowsRun | src/ccc_storage_mountd/workers/compaction.py:246-278 | read on its own, the ideal merge always shows what its run shows |
| MergeWalk.Workdir.MergeExtractedLayer | src/ccc_storage_mountd/workers/compaction.py:212-243 | the opaque pass and the depth-sorted walk raise exactly when an opaque directory meets an uncleared older file or a directory meets an older dangling symlink that neither an opaque directory nor a whiteout removed before; otherwise the directory ends up holding exactly the ideal merge minus the entries the walk loses to whiteouts of their own layer |
| MergeWalk.LinkMet | src/ccc_storage_mountd/workers/compaction.py:234-236 | at its turn in the sorted walk, a directory meets a dangling symlink exactly if none of the layer's opaque directories above it, whiteouts of its ancestors, or a whiteout of its own that sorts first has removed it |
| MergeWalk.Workdir.ClearOpaque | src/ccc_storage_mountd/workers/compaction.py:222-228 | the opaque pass raises exactly when an opaque directory meets an older file or link, and otherwise leaves what no opaque directory cleared, plus the opaque directories and their ancestors |
| MergeWalk.Workdir.CopyEntry | src/ccc_storage_mountd/workers/compaction.py:200-209 | whatever stood at the destination is gone, parents exist, the entry is there, everything else is as it was |
| MergeWalk.Workdir.RemovePath | src/ccc_storage_mountd/workers/compaction.py:193-197 | exactly the path and everything below it is gone |
| MergeWalk.WalkResult | src/ccc_storage_mountd/workers/compaction.py:230-243 | what the sorted walk leaves is the ideal merge minus the lost entries, for every pair of layers |
| MergeWalk.MergeLossyIsLayer | src/ccc_storage_mountd/workers/compaction.py:212-243 | what a merge leaves behind is again a layer |
| MergeWalk.LostOnNames | src/ccc_storage_mountd/workers/compaction.py:230-243 | the walk loses exactly entries of a layer that its own whiteout names, that have nothing below them and whose name comes before the whiteout; nothing whose name starts above "." is lost |
| Compaction.BuildPartialCompaction | src/ccc_storage_mountd/workers/compaction.py:246-278 | succeeds exactly on a non-empty run none of whose merges raises, and then yields the fold of the merges, oldest first |
| Compaction.CompactionIsTransparent | src/ccc_storage_mountd/workers/compaction.py:246-278 | the built pack can stand in for its run in every stack if and only if no entry was lost for good and no file that hid deeper content was forgotten, both read off the layers of the run |
| Compaction.CompactionOverView | src/ccc_storage_mountd/workers/compaction.py:246-278 | over one given view the built pack shows what its run shows if and only if no entry was lost for good and nothing of the view is uncovered |
| Compaction.BuiltPointwise | src/ccc_storage_mountd/workers/compaction.py:212-243 | the build is the ideal merge of the run minus exactly the entries lost by one layer and neither restored nor hidden by a later one |
| Compaction.LossShows | src/ccc_storage_mountd/workers/compaction.py:238-242 | an entry lost for good is missing even when the run is the whole stack |
| Compaction.TameCompaction | src/ccc_storage_mountd/workers/compaction.py:246-278 | if the layers agree on which paths are directories and whiten out no name sorting before its whiteout, the build never raises and is invisible in every stack |
| Compaction.TameStaysTame | src/ccc_storage_mountd/workers/compaction.py:246-278 | compacting any part of such a stack leaves such a stack |
| Witnesses.RecompactionLosesRecreatedFile | src/ccc_storage_mountd/workers/compaction.py:230-243 | delete a file, recreate it, compact: invisible; compact again: invisible if and only if the name, character by character, does not come before its whiteout, so for every name that starts above "." |
| Witnesses.BashrcIsLost | src/ccc_storage_mountd/workers/compaction.py:230-243 | so `.bashrc`, deleted, recreated and compacted twice, is gone, and `data` is still there with its contents |
| Witnesses.LaterCompactionsLoseItToo | src/ccc_storage_mountd/workers/compaction.py:230-243 | the loss happens with whatever newer pack the second compaction merges |
| Witnesses.DirOverFileShowsThrough | src/ccc_storage_mountd/workers/compaction.py:233-237 | a directory committed over a file, compacted with it, lets deeper content show through |
| Witnesses.OpaqueDirOverFileRaises | src/ccc_storage_mountd/workers/compaction.py:222-228 | an opaque directory committed over a file makes the merge of the two raise |
| Witnesses.OpaqueRootClearsFirst | src/ccc_storage_mountd/workers/compaction.py:222-228 | under an opaque root an opaque directory over an older file merges if and only if the root's marker comes before the directory's name; for every name that starts above ".", for none that starts below |
| Witnesses.DirOverLinkRaises | src/ccc_storage_mountd/workers/compaction.py:234-236 | a directory committed over a symlink makes the merge of the two raise if and only if the link dangles during the merge |
| Witnesses.WholeStackCompaction | src/ccc_storage_pack/reader.py:104-122 | compacting a whole stack into one pack leaves what read-only readers see as it was if and only if nothing was lost and no marker is left in the pack |
| Witnesses.DeletionShowsItsTombstone | src/ccc_storage_pack/reader.py:121-122 | a file and its deletion, compacted: invisible to writable mounts, but read-only readers find the whiteout file |
| Publish.PublishReplacesBlock | src/ccc_storage_mountd/workers/compaction.py:150-190 | publication succeeds exactly when the selected paths are one contiguous block as long as the selection, and replaces precisely that block |
| Publish.PublishSuffix | src/ccc_storage_mountd/workers/compaction.py:150-190 | with distinct paths, publishing a newest suffix replaces exactly that suffix and retires it |
| Publish.GenerationRange | src/ccc_storage_mountd/workers/compaction.py:124-131 | the recorded range of packs is from their smallest to their largest recorded generation, and unrecorded exactly if all are |
| Levels.ChooseInitialLevel | src/ccc_storage_mountd/workers/levels.py:182-191 | the loop picks the last level whose capacity holds the size, the base level if none does |
| Levels.LastFittingIs | src/ccc_storage_mountd/workers/levels.py:182-196 | the target is a configured level that holds the size, no higher level does, or it is the base |
| Levels.TargetIsAntitone | src/ccc_storage_mountd/workers/levels.py:194-196 | more bytes never target a higher level |
| Levels.IsValidStack | src/ccc_storage_mountd/workers/levels.py:199-211 | the counting check accepts exactly the stacks with strictly increasing levels |
| Levels.PlanLevelCompaction | src/ccc_storage_mountd/workers/levels.py:214-269 | the search loop returns the planner function: the first newest suffix whose merge heals the stack |
| Levels.HealsIsValidPublication | src/ccc_storage_mountd/workers/levels.py:241-249 | the test the search applies to a suffix holds exactly when publishing its merge at the target level gives a valid stack |
| Levels.PlannerCorrect | src/ccc_storage_mountd/workers/levels.py:214-269 | silent exactly on valid stacks; otherwise a non-empty newest suffix whose publication is valid, no shorter suffix would do, and planning the published stack again is silent |
| Levels.WhenBlocked | src/ccc_storage_mountd/workers/levels.py:250-261 | a candidate is unblocked exactly when base rewrites are allowed, or its target is above the base and its bytes are within the online budget; it is blocked for the base exactly when its target is not above it, and for the budget otherwise |
| Levels.OnlineNeverRewritesBase | src/ccc_storage_mountd/workers/levels.py:214-262 | with base compaction off, an unblocked candidate never contains a bottom pack on the base level |
| Levels.AtMostOnePerLevel | src/ccc_storage_mountd/workers/levels.py:199-211 | a valid stack on configured levels has at most one pack per level |
| RewriteBound.LevelNeverRises | src/ccc_storage_mountd/workers/levels.py:182-269 | over any run, the level of the pack holding a given byte never rises and that pack never shrinks |
| RewriteBound.StayGrows | src/ccc_storage_mountd/workers/levels.py:238-262 | a rewrite that leaves old bytes on their level grows their pack by more than the capacity of every level above |
| RewriteBound.RewritesAreBounded | src/ccc_storage_mountd/workers/levels.py:214-269 | over every unblocked run at most cap(x) / (cap(y) + 1) rewrites leave a byte on level x, for every level y above x; on the base level, which has no cap, the size of the byte's own pack takes the place of cap(x) |
| RewriteBound.BoundedStack | src/ccc_storage_mountd/workers/levels.py:199-269 | every unblocked run from an empty stack keeps at most as many packs as there are configured levels |
| Reader.DescendFollowsTop | src/ccc_storage_pack/reader.py:104-156 | one component of an overlay lookup, with the directories it carries on, loses nothing of the whole-path lookup |
| Reader.MountShowsView | src/ccc_storage_pack/reader.py:104-151 | an overlay of all packs in reversed order shows, by component-wise top-first lookup and for every path, exactly the old-to-new materialised view |
| Reader.MountStackRo | src/ccc_storage_pack/reader.py:104-156 | a lone pack is mounted as it is, several are handed to the overlay newest first, an empty stack is an error |
| Reader.ReadOnlyShowsView | src/ccc_storage_pack/reader.py:104-156 | the read-only mount of a non-empty stack shows its view if and only if there are several packs or the only pack holds no marker file |
| Reader.MountLayeredRw | src/ccc_storage_pack/reader.py:159-221 | the writable shared mount is the upper over one lower, the mounted stack |
| Reader.MountLayeredRwKernelOverlay | src/ccc_storage_pack/reader.py:224-284 | the node-local mount is the upper over all packs, newest first |
| Reader.MountDirsAndPacksRo | src/ccc_storage_pack/reader.py:287-340 | published mirrors come above all packs, newest first; nothing to mount is an error |
| Reader.NestedIsFlat | src/ccc_storage_pack/reader.py:196-268 | for any number of packs the nested writable mount, over their read-only mount, and the flat one show the same tree, the view of the packs and the upper |
| Reader.MountPublishedMirrorRo | src/ccc_storage_mountd/childmount.py:373-387 | a published mirror is stacked over the packs, or bound as it is when there are none |
| Reader.MirrorShowsView | src/ccc_storage_mountd/childmount.py:373-387 | it shows the view of the packs with the mirrored upper applied if and only if there are packs or the mirror holds no marker file |
| Daemon.ChildService.PrepareDeltaSource | src/ccc_storage_pack/builder.py:49-76 | the prepared delta is the sealed upper, whiteouts included, and the count is its files |
| Daemon.ChildService.CommitSharedNfs | src/ccc_storage_mountd/daemon.py:373-404 | a commit seals, builds, appends and compacts as the commit function says; a clean upper changes nothing |
| Daemon.ChildService.CompactIfNeeded | src/ccc_storage_mountd/daemon.py:514-543 | a compaction happens exactly when the planner asks for one, unblocked, and its merges do not raise; the new state is the compaction function's |
| Daemon.ChildService.Rewrite | src/ccc_storage_mountd/daemon.py:524-542 | the candidate's build replaces its packs in the manifest; if the build raises, manifest and files are untouched |
| Daemon.EveryRunIsGood | src/ccc_storage_mountd/daemon.py:373-624 | every run keeps: stored layers, ranges partitioning the generations, well-formed names, configured levels, and that a stack that is not valid ends in a delta sitting where its size puts it |
| Daemon.GenerationsAreConserved | src/ccc_storage_mountd/daemon.py:476-498 | after any run every generation from 1 to the present is recorded by exactly one pack, nothing else is, and the number after the "g" of the revision is the present generation |
| Daemon.OutputsAreFresh | src/ccc_storage_mountd/daemon.py:545-573 | after any run files and base names of the stack are distinct, and neither the next delta nor the next compaction output takes one of them |
| Daemon.CandidateMergesAtLeastTwo | src/ccc_storage_mountd/workers/levels.py:238-269 | in such runs a candidate always merges at least two packs |
| Daemon.BoundedAfterCommit | src/ccc_storage_mountd/daemon.py:505-508 | with base compaction allowed and post-commit compaction on, a dirty commit leaves a valid stack if and only if the merge the planner asks for, if any, does not raise; a valid stack has at most one pack per configured level |
| Guards.CommitSealsExactly | src/ccc_storage_mountd/daemon.py:373-404 | a commit changes nothing if the upper holds no file but whiteouts; otherwise it appends one delta pack of the next generation that holds the upper, at the level for its size, and then compacts at most once, not at all if post-commit compaction is off |
| Guards.CompactionHappensExactly | src/ccc_storage_mountd/daemon.py:514-543 | an unhealthy stack is compacted exactly if the shortest newest run that heals it may be rewritten (base rewrites are allowed, or the merge goes above the base within the online budget) and its merge does not raise; then exactly that run gives way to one pack and the stack is healthy |
| Guards.BaseStays | src/ccc_storage_mountd/daemon.py:514-543 | over every run in which base compaction is neither allowed nor asked for, a bottom pack that once sits on the base level stays the bottom pack |
| Guards.RewritesStayInBudget | src/ccc_storage_mountd/daemon.py:525-526 | and no operation replaces packs of more bytes than the online budget |
| Guards.OutputIsNamed | src/ccc_storage_mountd/daemon.py:545-573 | a compaction is written to the name of its level and range, an unrecorded end of the range being the present generation |
| Names.DeltaNamesDiffer | src/ccc_storage_mountd/daemon.py:463 | delta file names are injective in the generation, padding included |
| Names.CompactNamesDiffer | src/ccc_storage_mountd/daemon.py:572 | compaction file names are injective in level and range |
| Visibility.CommitIsInvisible | src/ccc_storage_mountd/daemon.py:373-404 | a commit by itself never changes what a reader sees |
| Visibility.CompactionIsInvisible | src/ccc_storage_mountd/daemon.py:514-543 | a compaction leaves the view of the child as it was if and only if it does not go ahead, or loses nothing and uncovers nothing of the packs beneath |
| Visibility.CompactedRunShowsLog | src/ccc_storage_mountd/daemon.py:373-543 | over every run: at every moment a reader sees exactly the append-only log of sealed uppers, if and only if no compaction of the run lost anything or uncovered anything of the packs beneath |
| Visibility.OnlyWritesChangeTheLog | src/ccc_storage_mountd/daemon.py:373-543 | only user writes change what that log shows |
| Visibility.TameRunShowsLog | src/ccc_storage_mountd/daemon.py:373-543 | if the committed uppers are tame, every run shows its log, whatever was compacted and when |
| Writers.SingleWriter | src/ccc_storage_mountd/childmount.py:399-452 | whatever the interleaving, the publishing threads and the crashes, at most one agent is mounted read-write or committing, and the lock file exists and is its own |
| Writers.HeartbeatTells | src/ccc_storage_mountd/childmount.py:454-466 | a thread that picked up a mount's record publishes under that mount's lock if and only if the heartbeat does not raise: the lock file is there and is the one that mount created |
| Writers.OnlyHolderChanges | src/ccc_storage_mountd/childmount.py:454-493 | mirror and generation change only by a step of the lock holder, or by a thread publishing a record it picked up, whose publication is its holder's exactly when its heartbeat does not raise |
| Writers.StrandedByDeath | src/ccc_storage_mountd/childmount.py:414-437 | over every run, a step leaves a lock file that nobody will remove if and only if it was there before or the step is the death of the holder (a crash, or a failure between taking the lock and mounting) |
| Writers.StrandedForGood | src/ccc_storage_core/locks.py:50-67 | from then on, whatever the nodes do, the lock file stays and is the dead holder's |
| Writers.HolderCanGiveUp | src/ccc_storage_mountd/childmount.py:435-437 | a live holder can give up from any phase by steps of its own, which remove the lock file and leave manifest, mirror, commits and every written upper as they were |
| Writers.CommitsLandWhereWritten | src/ccc_storage_mountd/daemon.py:406-444 | over every run, commit i is of an epoch labelled with generation i, on exactly the view its record had mounted; its upper was written over generation i if and only if the label is true, never over a later one; and it shows what its writer saw if and only if the two views agree wherever the upper neither holds nor hides anything |
| Writers.OnlyPublicationsChangePending | src/ccc_storage_mountd/daemon.py:406-448 | committing, compacting, crashing, mounting and cleaning up leave the pending state of the child as it is, except that a commit makes permanent the mirror it read, whatever was published since; only publications change it |
| Writers.PublicationShows | src/ccc_storage_mountd/childmount.py:454-479 | any publication makes pending the node's upper over what its record had mounted if that is the present generation, and falls back to the committed view if it is an older one |
| Provenance.PublicationLabels | src/ccc_storage_mountd/childmount.py:454-493 | a publication, by a live mount or a late thread, labels its epoch with its record's generation, and the label is true if and only if that is the generation the node's upper was last written over |
| Provenance.MountKeepsLabels | src/ccc_storage_mountd/childmount.py:332-452 | from hydration to unmount, whatever others do, the labels of a mount are true if and only if it has written, or the upper it started with (its own, else the mirror's) is empty or was written over the generation it loaded |
| Provenance.MountShowsPending | src/ccc_storage_mountd/childmount.py:332-348 | a fresh mount shows the pending state if and only if, path by path, its hydrated upper over the loaded view shows what the pending upper shows over the committed one; it does if it loaded the present generation and its upper is empty or the mirror's tree |
| Provenance.CommittableWhileItLives | src/ccc_storage_mountd/daemon.py:406-448 | whenever the lock is free, a write, committed before or not, can still be committed if and only if its upper has a dirty entry and is still some node's or the mirror's |
| Provenance.CleanupDecides | src/ccc_storage_mountd/daemon.py:446-500 | after a commit whose cleanup was cut before the mirror, before the upper, or not at all, the write can be committed again exactly: always; if any node has it; if another node has it |
| Provenance.OnlyFirstCommitIsTrue | src/ccc_storage_mountd/daemon.py:430-434 | of several commits of one write only the first can be labelled truly |
| WriterRuns.PublishesWithoutLock | src/ccc_storage_mountd/childmount.py:487-513 | from a fresh child: a record is picked up, unmounted, another node takes the lock, and the late publication replaces the mirror although its heartbeat raises |
| WriterRuns.LatePublicationCommitsElsewhere | src/ccc_storage_mountd/childmount.py:454-493 | from a fresh child: a late publication labels an upper written over generation 0 with generation 1, and it becomes the commit to generation 1 |
| WriterRuns.StaleLoadHappens | src/ccc_storage_mountd/childmount.py:399-452 | from a fresh child: a thread loads its manifest, another commits, and the lock is free with the older manifest loaded |
| WriterRuns.StaleCommitIsRefused | src/ccc_storage_mountd/childmount.py:399-452 | from there it can write and publish, but its commit raises and changes nothing |
| WriterRuns.StaleWriteLandsLater | src/ccc_storage_mountd/daemon.py:430-434 | but mounting and unmounting once more, without a write, labels the same upper with the present generation, and it is committed there |
| WriterRuns.StaleWriteLandsFromStart | src/ccc_storage_mountd/childmount.py:332-452 | the whole run from a fresh child: an upper written over generation 0 becomes the commit to generation 1 |
| WriterRuns.OnlyOwnUpperIsCleaned | src/ccc_storage_mountd/daemon.py:446-448 | after a commit by b of what a wrote, a's upper is gone if and only if b is on a's node and its cleanup was not cut short |
| WriterRuns.UpperCommittedTwice | src/ccc_storage_mountd/childmount.py:332-348 | from a fresh child, with one write and two commits by b: the one upper is committed over generation 0 and again, falsely labelled, over generation 1, if and only if b is on another node or its first cleanup was cut short |
| WriterRuns.OlderUpperReplacesNewer | src/ccc_storage_mountd/childmount.py:332-348 | from a fresh child, no commit, all mounts live: the next mount on a node that kept an older upper shows it and publishes it over the newer mirror |
| Mounts.ChildMountManager.MountRw | src/ccc_storage_mountd/childmount.py:127-452 | reuse counts references and refuses another mountpoint, mode or write policy; otherwise a shared-nfs child is mounted without a lock, and for a local-ssd-async one the lock is taken, or a held lock leads to the read-only mirror or an error |
| Mounts.OpensExactly | src/ccc_storage_mountd/childmount.py:127-157 | opening is refused exactly if the child is mounted elsewhere, read-only or under another policy, in this order, or is not mounted and its lock is held with nothing readable; otherwise every field of the record and the lock file are given |
| Mounts.ChildMountManager.AcquireLock | src/ccc_storage_core/locks.py:50-67 | an existing lock file is never taken over |
| Mounts.ChildMountManager.TearDown | src/ccc_storage_mountd/childmount.py:506-511 | publish if dirty, unmount, release the lock, forget the record, and nothing else |
| Mounts.ChildMountManager.Unmount | src/ccc_storage_mountd/childmount.py:501-513 | the last reference tears the mount down, others only count |
| Mounts.ChildMountManager.ForceUnmount | src/ccc_storage_mountd/childmount.py:515-525 | tears down regardless of references |
| Mounts.ChildMountManager.Release | src/ccc_storage_mountd/childmount.py:527-541 | drops a reference without unmounting, never below zero |
| Mounts.ChildMountManager.IdleUnmountExpired | src/ccc_storage_mountd/childmount.py:543-562 | exactly the unreferenced mounts idle for the ttl are torn down |
| Mounts.ChildMountManager.StopAll | src/ccc_storage_mountd/childmount.py:577-583 | every mount is torn down |
| Mounts.TearsDownExactly | src/ccc_storage_mountd/childmount.py:506-511 | ending mounts forgets exactly their records, removes exactly the lock files they held, and makes the generation they had mounted the mirror's exactly if they held the lock and were dirty |
| Mounts.UnmountsExactly | src/ccc_storage_mountd/childmount.py:501-525 | an unmount ends a mount exactly at its last reference and else only counts; forcing always ends it |
| Mounts.ReleasedIsReaped | src/ccc_storage_mountd/childmount.py:527-562 | a release lowers the count, not below zero, and dates the last use; idling later ends the mount exactly if that was the last reference and the ttl has passed since |
| Mounts.IdlingReapsExactly | src/ccc_storage_mountd/childmount.py:543-562 | idling ends exactly the unreferenced mounts not used for the ttl |
| Mounts.MountsStayAsMade | src/ccc_storage_mountd/childmount.py:127-157 | over every run of any number of nodes, place, mode, policy, lock and base of a record never change while it exists |
| Mounts.EveryTableStaysValid | src/ccc_storage_mountd/childmount.py:240-583 | whatever operations any number of nodes do over one set of lock files, in any order, on every node the lock files it created are exactly those of its writable local-ssd-async mounts |
| Mounts.OneWriter | src/ccc_storage_mountd/childmount.py:399-452 | over all such runs two nodes never both have a child mounted for writing under local-ssd-async, and the one that does created the lock file |
| Mounts.StopFreesItsNodeOnly | src/ccc_storage_mountd/childmount.py:577-583 | after any run a stop leaves no lock file of its node and every other node's writable local-ssd-async mounts as they were |
| Mounts.OpenMountsSurviveIdling | src/ccc_storage_mountd/childmount.py:543-562 | after any run reaping idle mounts leaves every referenced mount, on any node, and its lock file as it was |
| Mounts.OpensAndUnmountsBalance | src/ccc_storage_mountd/childmount.py:501-513 | n opens and n unmounts undo each other under either policy; under local-ssd-async the lock is held throughout and the dirty upper is published before it goes |
| MirrorDir.DirtyMirror.PublishLogicalMirror | src/ccc_storage_mountd/overlay.py:233-299 | cut after any number of single effects, a reader finds what it found before or the new epoch complete; it finishes exactly when the effects suffice |
| MirrorDir.DirtyMirror.Announce | src/ccc_storage_mountd/overlay.py:276-288 | from staged to announced: rename, relink and publish.json, each cut shows the old mirror or the whole new one |
| MirrorDir.DirtyMirror.StageTree | src/ccc_storage_mountd/overlay.py:204-275 | the staged epoch ends up equal to the upper, and no cut touches another directory |
| MirrorDir.DirtyMirror.RemoveTree | src/ccc_storage_mountd/overlay.py:256-259 | deletes one directory entry by entry, touching no other at any cut |
| MirrorDir.ReaderFinds | src/ccc_storage_mountd/overlay.py:302-321 | a reader finds the announced epoch with the tree at the announced path or, if that is gone, the one behind `current`, and nothing otherwise |
| MirrorDir.NextIsUnpublished | src/ccc_storage_mountd/overlay.py:199-201 | the directories a publication stages and replaces are never the published one |
| MirrorDir.LatestWasPublished | src/ccc_storage_mountd/overlay.py:302-321 | at any time a reader finds nothing or exactly the tree and base given to some publication since the last cleanup |
| MirrorDir.EpochsIncrease | src/ccc_storage_mountd/overlay.py:199-201 | between cleanups epochs never go down and a changed mirror has a higher epoch |
| MirrorDir.EpochsCount | src/ccc_storage_mountd/overlay.py:199-201 | the number of the epoch a reader finds is the count of publications since the last cleanup that readers came to see: numbered from one, with no number used up by a cut publication |
| Cold.ColdStore.ArchiveCommittedPacks | src/ccc_storage_cold/archive.py:146-190 | the archive loops, cut after any effect, do exactly the archive's sequence of effects up to there |
| Cold.ColdStore.RecallColdStoragePacks | src/ccc_storage_cold/archive.py:193-258 | the recall loops, cut after any effect, do exactly the recall's sequence of effects up to there |
| Cold.ColdStore.EnsureHot | src/ccc_storage_mountd/daemon.py:292-315 | recalls exactly when the child is cold or a pack file is missing |
| Cold.KeysDiffer | src/ccc_storage_cold/archive.py:43-44 | object keys coincide only for the same stripped prefix and the same base name |
| Cold.ChildPrefixIsUri | src/ccc_storage_cold/config.py:87-89 | the prefix a child is archived under never strips to nothing |
| Cold.ChildPrefixesDiffer | src/ccc_storage_cold/config.py:87-89 | under one configured prefix different generations, and different children but for the empty id and "child", are archived under different prefixes |
| ColdSafety.EveryRunIsRecoverable | src/ccc_storage_cold/archive.py:146-258 | at every crash point of every run each pack is hot with matching bytes, or the manifest is cold and the store holds it under its uri |
| ColdSafety.ColdStepKeepsContents | src/ccc_storage_cold/archive.py:146-258 | archives and recalls, cut anywhere, keep the bytes behind every pack |
| Lifecycle.StepRefinesDaemon | src/ccc_storage_mountd/daemon.py:373-624 | a write, commit or compaction of a child with bytes, manifest and cold state is the run model's operation on its trees, and keeps every pack within reach |
| Lifecycle.EveryLifeIsOk | src/ccc_storage_mountd/daemon.py:292-624 | over every run of writes, commits, compactions, archives and recalls, the last two cut anywhere, all invariants of the run model and of cold storage hold together |
| Lifecycle.LifeOutputsAreFresh | src/ccc_storage_mountd/daemon.py:545-573 | in all these runs no delta and no compaction output takes the file or base name of a pack in the stack, recalled packs included |
| Guards.BaseOutlivesArchives | src/ccc_storage_mountd/daemon.py:292-624 | the base pack also stays the bottom pack through archives and recalls, cut anywhere |
| Guards.LifeStaysInBudget | src/ccc_storage_mountd/daemon.py:525-526 | and in these runs too no operation replaces packs of more bytes than the online budget |
| Guards.OnlyCleanChildrenAreArchived | src/ccc_storage_mountd/daemon.py:905-943 | a child whose upper holds a file other than a whiteout is not archived, any other is under the prefix of its generation |
| Lifecycle.LifeShowsLog | src/ccc_storage_mountd/daemon.py:292-624 | over every such run, with crashes anywhere inside archives and recalls: at every moment the tree behind the packs is that of the append-only log of sealed uppers, if and only if no compaction lost anything or uncovered anything of the packs beneath; the writable view is then the log's too |
| Lifecycle.OnlyWritesShow | src/ccc_storage_mountd/daemon.py:292-624 | so commits, compactions, archives and recalls never change the writable view |
| Lifecycle.ReadOnlyMountSeesLog | src/ccc_storage_pack/reader.py:104-156 | the read-only mount shows the log's committed layers if and only if there are several packs or the only pack holds no marker file |
| Lifecycle.TameLifeShowsLog | src/ccc_storage_mountd/daemon.py:292-624 | if the committed uppers are tame, every such run shows its log with no condition on its compactions |
| ColdSafety.RecallExactly | src/ccc_storage_cold/archive.py:193-258 | a recall completes exactly when a uri is recorded and every object under it is present and matches; then every pack file is in the hot directory, the uri is kept and the child is hot; otherwise it raises having published nothing |
| ColdSafety.ColdChildComesBack | src/ccc_storage_mountd/daemon.py:292-315 | from every reachable cold state a recall brings all packs back, hot and unchanged |
| ColdSafety.ArchiveExactly | src/ccc_storage_cold/archive.py:146-190 | an archive completes exactly when every pack is hot; then the state is cold exactly if eviction was asked for, uri, packs and generation are as said, and nothing is left hot if eviction was asked for; otherwise files and manifest are untouched |
| ColdOutcomes.ArchiveRecords | src/ccc_storage_cold/archive.py:146-190 | an archive that finishes records the child cold exactly if it evicts; if not, no access needs a recall; either way every pack and the manifest snapshot are under the recorded, non-empty uri and no other object changed |
| ColdOutcomes.KeptHotIsNeverCold | src/ccc_storage_cold/archive.py:165-174 | over every run whose archives all keep hot, cut anywhere, the child is never cold and no access recalls |
| ColdOutcomes.AccessFindsPacks | src/ccc_storage_cold/policy.py:24-31 | in every world and with any budget an access that goes on finds every pack file; with enough of it, it raises exactly if the child has packs, is cold or lacks a file, and its uri is empty or an object is missing or wrong |
| ColdOutcomes.HotChildIsLeftAlone | src/ccc_storage_cold/policy.py:24-31 | over every run, an access to a child that is not cold changes nothing |
| ColdOutcomes.RecallVerifies | src/ccc_storage_cold/archive.py:224-235 | a recall that finishes has found every object with exactly the promised bytes and length; one that raises leaves no download behind |
| ColdOutcomes.LostPackComesBack | src/ccc_storage_mountd/daemon.py:292-315 | a hot child that lost pack files but is mirrored under its uri gets them all back on the next access, with the promised bytes |
| ColdSafety.CommitWhileColdStrandsTheChild | src/ccc_storage_mountd/daemon.py:406-444 | a commit to a cold child keeps every pack recoverable one by one, but no recall completes again, nor an archive while an old pack is evicted |
| Boundaries.LongestPrefix | src/ccc_storage_core/resolve.py:49-60 | the loop returns the longest matching boundary, the first of equally long ones |
| Boundaries.NearestIsLongest | src/ccc_storage_core/resolve.py:49-60 | none exactly when nothing matches; otherwise a match no other match is longer than |
| Boundaries.NearestIsFirst | src/ccc_storage_core/resolve.py:49-60 | of equally long matches the first one wins |
| Boundaries.RootBoundaryIsIgnored | src/ccc_storage_core/resolve.py:52-54 | a boundary at the parent's own root owns nothing: without it every path has the same owner |
| Boundaries.PosixReadsBack | src/ccc_storage_core/resolve.py:45-46 | normalisation leaves normal paths alone and their components can be read back |
| Boundaries.PrefixIsComponentwise | src/ccc_storage_core/resolve.py:56 | on normal paths the string test holds exactly when the boundary is a prefix component by component |
| Boundaries.UnderIsSpelledPrefix | src/ccc_storage_core/resolve.py:56 | on any path the string test holds exactly when the boundary is a prefix of the pieces as spelled, empty and "." pieces included |
| Boundaries.OwnerIsLongestPrefix | src/ccc_storage_core/resolve.py:72-97 | for every path that names something, the owner is the longest component-wise boundary prefix or the parent, and the inner path is the remaining components |
| Boundaries.NothingIsTheParents | src/ccc_storage_core/resolve.py:45-46 | a path that names nothing is the parent's, as "." or, if it is absolute, as the empty path |
| Boundaries.BoundaryAndInnerRebuild | src/ccc_storage_core/resolve.py:90-97 | boundary, slash and inner path rebuild the normalised path |
| Routing.QuoteReadsBack | src/ccc_storage_core/names.py:10-21 | percent-decoding undoes the encoding |
| Routing.Utf8Injective | src/ccc_storage_core/names.py:10-21 | different ids have different bytes |
| Routing.NamesCollideExactly | src/ccc_storage_core/names.py:10-21 | names coincide exactly for equal ids and for the empty id with "child" |
| Routing.NameIsOneComponent | src/ccc_storage_core/names.py:10-21 | a name is a non-empty string without slashes |
| Routing.KeepsUnreserved | src/ccc_storage_core/names.py:10-21 | exactly ASCII letters, digits and `_.-~` are kept by the encoding |
| Routing.RouteIs | src/ccc_storage_mountd/overlay.py:115-133 | a write goes to the child of the longest boundary above its path at the rest of the path, or to the parent exactly if there is none, in the overlay whose name decodes to the owner's id |
| Routing.RoutingIsInjective | src/ccc_storage_mountd/overlay.py:115-133 | two paths land in the same place of the same overlay exactly when they have the same components |
| Hpc.ComputeMountClosure | src/ccc_storage_hpc/closure.py:10-38 | an unknown root raises; otherwise the graph is the root and each boundary on the side its selection says |
| Hpc.NodesAreBoundaries | src/ccc_storage_hpc/closure.py:26-37 | every boundary is a node on exactly its side and nothing else is |
| Hpc.BoundariesAreLast | src/ccc_storage_core/resolve.py:121-140 | the boundaries of an id are those of the last manifest that declares any |
| Hpc.ByLengthSorts | src/ccc_storage_hpc/client.py:36-43 | the order of the scan: longer paths first, same nodes |
| Hpc.ByLengthIsStable | src/ccc_storage_hpc/client.py:36-43 | nodes with equally long paths keep their order |
| Hpc.StagedLookup | src/ccc_storage_hpc/client.py:34-57 | the loops compute the lookup function |
| Hpc.LookupExactly | src/ccc_storage_hpc/client.py:34-57 | on any graph, computed or not: the lookup names a longest excluded node at or above the path if there is one; otherwise it answers with a longest covering node or else a node of the root's id, and finds nothing exactly if there is neither |
| Hpc.ExclusionIsExact | src/ccc_storage_hpc/client.py:36-42 | for distinct, non-empty boundaries written without outer slashes, the lookup raises for exclusion exactly when an excluded boundary is the stripped path or above it |
| Hpc.LookupIs | src/ccc_storage_hpc/client.py:34-57 | for such boundaries and every path: excluded boundaries raise; otherwise the answer is the nearest boundary of the stripped path, or the root if there is none or its path is one character long |
| Hpc.LookupRefinesResolution | src/ccc_storage_hpc/client.py:34-57 | for such boundaries (`PlainBoundaries`) and paths normalised by stripping slashes (`NormalPath`): the lookup raises whenever the owner is excluded, and an answer is the owner if and only if no boundary owns the path or the owning boundary has at least two characters or is the root's; owner, path and inner path then agree with owner resolution |
| Hpc.LookupOnAnyPath | src/ccc_storage_hpc/client.py:34-57 | for every path, with distinct ids: exclusion and agreement with owner resolution hold exactly down to the first empty or "." piece of the path; an excluded owner is missed only behind one |
| Hpc.DottedPathSlipsPast | src/ccc_storage_hpc/client.py:34-57 | an excluded child's path with "./" in front is answered with the root |
| Hpc.OneCharacterBoundaryIsShadowed | src/ccc_storage_hpc/client.py:43-49 | whatever other boundaries there are, a path owned by a selected child at a one-character boundary is answered with the root or not at all, never with that child |

## Left out

- Subprocesses (`mksquashfs`, `unsquashfs`, `squashfuse`, `mount`), FUSE callbacks, sockets, argument and environment parsing, ownership and permissions: a pack reads back exactly what it was built from, and a mount shows what overlay lookup finds.
- TOML and JSON text: a manifest write and a file replacement are single steps; the object that holds the manifest snapshot has arbitrary text.
- SHA-256 is ideal: the digest determines the bytes.
- Symlinks that resolve to directories, hard links, special files, times and modes: a tree has directories and files with a payload, and a symlink is a file that dangles, or does not, for as long as it is in the tree.
- Reader.NestedIsFlat: `.wh.*` files are taken to be understood by every overlay; the kernel's OverlayFS (src/ccc_storage_pack/reader.py:256-268) has its own markers and would show them as plain files.
- A file named exactly `.wh.`, whiteouts of whiteouts, and directories whose name starts with `.wh.`: layers exclude them.
- Compaction.BuildPartialCompaction: compares trees, not the verification of the written file's hash and size, which always succeeds when a build reads back.
- Levels.PlanLevelCompaction: the reason texts are an enumeration, and sizes and levels are non-negative as the policy parser and the builder produce them.
- Daemon.ChildService.CommitSharedNfs: the commit lock and the re-read under it are not modelled; operations on one shared-nfs child are taken one after the other and a delta build succeeds. A failed build deletes the sealed upper, so nothing is claimed about it.
- Lifecycle.EveryLifeIsOk: a build reads back as the tree it was built from; commits and compactions that go ahead find the child not cold (ColdSafety.CommitWhileColdStrandsTheChild shows the alternative), and packs are recalled into the directory they were built in.
- Unserialised writes of the manifest by explicit compaction, pinning and write-policy changes: an explicit compaction is one step, here also in Writers.
- Legacy packs without generation metadata in the run-level results; the planner results allow any levels, and OutputPath keeps the fallback to the manifest's generation.
- Writers.SingleWriter: says nothing about progress beyond `Writers.HolderCanGiveUp`. A publication reads the upper and replaces the mirror in one step, one record is unmounted by one thread, and a write is taken to be of the whole upper as its writer leaves it.
- Mounts.ChildMountManager.MountRw: a node's operations take effect one after the other, records are values in a map, the lock object of a record is its `locked` flag, time is an integer, a mount call itself does not fail, and lock files are keyed by the child id rather than its encoded name.
- MirrorDir.DirtyMirror.PublishLogicalMirror: the upper does not change while it is copied, the cleanup after a commit is one effect, and no other publication of the same child runs meanwhile, which the writer lock gives for live mounts but not for a late publication: two at once share one staging directory, and what they leave in it is not modelled.
- Cold.ColdStore.RecallColdStoragePacks: downloads wait in slots of their own instead of dotted temporary files next to the packs, which no pack is named like.
- Routing.NameIsOneComponent: the ids "." and ".." are left as they are by the encoding, so their overlay directory is not below the overlay root; routing compares names, not resolved directories.
- Routing.Utf8Injective: ids are sequences of Unicode scalar values; ids with lone surrogates raise in src/ccc_storage_core/names.py.
- Auto-commit thresholds, garbage-collection predicates, the older whole-stack consolidation, environment transactions, managed parents and observation: each is settled by one branch.
