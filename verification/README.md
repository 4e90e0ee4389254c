# QuantumFS in Dafny

QuantumFS is a branchable, content-addressed filesystem.  This project models the hard parts of its
daemon and proves what they keep: the three-way merge of workspaces, files made of blocks, hardlink
counts that bubble up the directory tree, the two views of a directory's children, the directory block
chain, the read cache, inode ids and reference counts, the dirty queue, the access list and the
alternating lock.

Protocols are state machines over their steps; each main theorem holds in every reachable state or for
every run.  Code that updates maps, lists and buffers in place is a class whose methods are proved
equal to functions on values, and the laws are proved about those functions.  `dafny verify
dfyconfig.toml` checks everything.

| file | contents |
|---|---|
| `Basics.dfy`, `Objects.dfy`, `Sums.dfy` | constants and ids; object types, keys, records; finite sums over maps |
| `ByteMerge.dfy`, `StoredMerge.dfy`, `TreeMerge.dfy`, `MergeLaws.dfy`, `RecordLaws.dfy`, `MergePaths.dfy`, `SkipPaths.dfy`, `MergeLinks.dfy`, `MergeWorkspace.dfy` | the three-way merge: bytes, stored blocks, records, trees, their laws for records and paths, paths to skip, link counts, workspace roots |
| `WorkspaceRuns.dfy` | any number of clients publishing to one workspace |
| `FileContent.dfy`, `FileRanges.dfy`, `DataStore.dfy`, `FileAccess.dfy`, `Files.dfy`, `FileMerge.dfy` | files as byte sequences, ranges across blocks, block accessors, reading, writing and truncating, merging two files in place |
| `HardlinkTable.dfy`, `LinkProtocol.dfy` | the hardlink table and the protocol around it |
| `ChildContainer.dfy`, `DirectoryPublish.dfy` | a directory's children; publishing and reading its block chain |
| `CombiningCache.dfy`, `InodeIds.dfy`, `Refcounts.dfy` | read cache, inode ids, reference counts |
| `DirtyQueue.dfy`, `AccessList.dfy`, `AltLock.dfy` | dirty queue, access list, alternating lock |

## What the code does not keep

Some properties hold only under a condition.  The exact condition is a theorem, and most have a failing case too.

- Shrinking a multi-block file does not record the resized copy of its last block unless that block is
  already held for syncing (`TruncateCleanIff`).  The bytes behind the end then come back on a later
  extension (`RegrowthZeroFillsIff`, `StaleByteReturns`); reads across the end return them
  (`ReadIsContentIff`, `ReadReturnsStaleByte`); writes may bring them back and change the length
  (`WriteIsOverlayIff`, `RewriteKeepsLengthIff`, `WriteBringsBackStaleByte`); and a merge with a longer file
  may panic over them (`OverlongIff`, `TruncatedMergePanicsIff`).
- A merge miscounts hardlinks when it drops or takes a directory without walking it: remote deletes a
  directory that holds local legs, a directory replaces a file or the reverse, or base has a file where
  both sides have a directory (`ConsistentIffNoDrift`, `DeletedDirectoryKeepsCount`,
  `ReplacedByDirectoryDropsCount`).
- A merge that panics installs a root with nothing but a README, and every name is lost.  From consistent
  roots a merge can leave a leg without table entry, over which the next merge panics (`NoLostAdditions`,
  `StepLosesOnlyDeletedIff`, `PanicLosesNames`).  Where the counts are right a merge panics exactly over the
  bytes of a file, and one client that cuts a file is enough for that (`ConsistentSidesMerge`,
  `ConsistentRunsLoseNothing`, `TruncationLosesNames`).
- When remote re-created a directory with its old content, the key-equality shortcut takes that content
  and loses a file that local added (`ShortcutExactlyWhen`, `RecreatedDirectoryLosesAddition`).
- Paths that a merge is to leave alone reach too far, and not far enough: one that begins with the name of
  a directory also applies inside it (`SkipsListedIff`, `SkipsTooMuch`), and one below a directory that only
  remote changed is overtaken by the shortcut (`ListedKeepsLocalIff`, `ShortcutIgnoresSkip`).
- Below the root a name can also be lost where the two sides of a merge have no common directory
  (`NoLostPaths`).
- The length of a merged file is cut to 32 bits, so that of long files a part or nothing is merged
  (`ThreeWayIffVisited`, `FourGiBIsNotMerged`).
- Syncing a small file whose recorded size differs from its stored block, without having read it, returns
  the key of the block and not of the content (`SmallFile.Sync`).
- A block set while a fetch of it is under way, which then fails, leaves a list element without an entry;
  its eviction takes along the placeholder of a later request, which is never answered
  (`StoreOneToOneIff`, `StepKeepsInvIff`, `FailedFetchOrphans`, `RequestIsLost`).
- An id released at or above the high mark can come back at once (`ComesBackIffAboveTheMark`).
- A forget without a recorded lookup gives back a reference that somebody else holds, unless there is one
  to spare (`ForgetSafeIff`).
- An orphan that loses its last reference stays listed as waiting for itself, where it cannot be
  instantiated (`OrphanIsLeftWaiting`).
- A failed flush of an inode that became dirty again leaves one reference behind (`NoLostModification`
  counts these exactly).
- A file that was normalized cannot be linked again before its last delta has bubbled up
  (`NewHardlinkIffUnused`, `RelinkMustWait`).
- A directory that is removed while it holds deltas pins the hardlink entries that they are for
  (`OrphanPinsEntry`).
- The documentation of the access list (cmds.go:50-80) does not say that a recreated file also loses its
  read mark; the code drops it (`FileEntry`).

## Model

| member | source | states |
|---|---|---|
| ByteMerge.MergedSpan | daemon/merge.go:913-917 | the merge visits whole blocks, and below 4 GiB all of the longer file |
| ByteMerge.MergeIsThreeWay | daemon/merge.go:879-992 | where all of the shorter file is visited, every byte is the three-way choice: the branch that kept the base yields, in a conflict the strictly newer wins, on a tie the longer, then remote; past the shorter file the longer one stays |
| ByteMerge.EveryByte | daemon/merge.go:857-992 | for files of any lengths: every byte that is visited is that choice, and every other one is the longer file's |
| ByteMerge.ThreeWayIffVisited | daemon/merge.go:910-976 | for any two lengths, all merges of such files are the three-way choice if and only if the shorter length lies within the span that the cut length of the longer one gives |
| ByteMerge.FourGiBIsNotMerged | daemon/merge.go:915-917 | so files whose length is a multiple of 4 GiB are merged wrongly |
| ByteMerge.OneSidedChange | daemon/merge.go:943-967 | a branch that kept the base yields on either side, but for its bytes past the end of a shorter changed file |
| FileMerge.MergeBuffers | daemon/merge.go:943-967 | the byte loops on three buffers leave the merged bytes in the other's buffer and touch nothing else |
| StoredMerge.OverlongIff | daemon/merge.go:940-941 | the assertion that the smaller file has no more data holds in all visited blocks if and only if no more is stored of it than of the longer file, or their last block is not visited |
| StoredMerge.CleanMerge | daemon/merge.go:910-976 | with nothing stored behind the ends of the files the assertion holds and the result is the merge of the contents |
| StoredMerge.MergedViewContents | daemon/merge.go:910-976 | writing merged block after merged block back leaves the merge of all that whole blocks show, cut to the length of the longer file unless its last block is reached |
| StoredMerge.TruncatedFileIsOverlong | daemon/merge.go:940-941 | a file of three bytes cut to one makes the assertion fail against a longer clean file |
| FileMerge.MergeInto | daemon/merge.go:910-976 | the block loop over any three accessors panics exactly in that case, and otherwise leaves in `other` the blocks so written |
| FileMerge.MergeFiles | daemon/merge.go:857-992 | with chooseAccessors: which accessor is kept, when it panics, what it then holds; for clean files the three-way merge of both contents |
| MergeLaws.AttributesAreThreeWay | daemon/merge.go:678-718 | two versions of one file: every attribute is the three-way choice by content time, and type and size come from the record the key comes from |
| MergeLaws.BranchesAreSymmetric | daemon/merge.go:645-719 | preferring the newer record, the merged attributes do not depend on which branch is local, but on a tie |
| MergeLaws.FilesAreMergedByByte | daemon/merge.go:857-992 | both changed: the merged record names blocks whose contents are the merge of all that the stored blocks show, of clean files the three-way merge of both contents without a panic; size and type match, and it is otherwise the premerged record |
| RecordLaws.RecordHoldsMerge | daemon/merge.go:744-840 | mergeRecord on two versions of one regular file, both changed and clean: every byte is the three-way choice where visited, and size and type are those of the longer version, remote's on a tie |
| RecordLaws.RecordAttributes | daemon/merge.go:645-719 | the attributes of any merged record but a leg: of one file the three-way choices; without a base, or of different files, all of one record, the re-created one, or else the preferred one, which is the newer, local on a tie, or always local or remote |
| RecordLaws.RecordContent | daemon/merge.go:744-840 | where nothing is descended into or merged by byte, key, type and size come together from one branch, of one file from the one that changed the key |
| MergeLaws.RemoteUnchanged | daemon/merge.go:395-528 | merge(b, b, l) = l for hardlink-free trees, in names and all fields but extended attributes, with shortcuts and without |
| MergeLaws.LocalUnchanged | daemon/merge.go:395-528 | merge(b, r, b) = r likewise |
| MergeLaws.BothSame | daemon/merge.go:395-528 | merge(b, x, x) = x likewise, whatever the base |
| MergeLaws.ShortcutRefinesFullMerge | daemon/merge.go:406-436 | with equal file ids the merge that takes the key-equality shortcut at any depth yields the tree of the merge that never does |
| MergeLaws.ShortcutExactlyWhen | daemon/merge.go:406-436 | where the keys of directory records allow a shortcut, it agrees with the full merge if and only if there is no base, the file ids are equal, both hold the same, or the side chosen by its file id is not the base's tree |
| MergeLaws.RecreatedDirectoryLosesAddition | daemon/merge.go:406-436 | with different file ids the shortcut can lose a file that the full merge keeps |
| MergePaths.NamesAtPaths | daemon/merge.go:395-528 | at every path along which both sides have directories, and the base a directory or nothing, the names are (L - (B - R)) + (R - B); with shortcuts where both mean the same directories |
| MergePaths.RecordAtPaths | daemon/merge.go:406-436 | a record whose three versions all differ is merged at whatever path it is: no shortcut can be taken above it |
| MergePaths.FilesAtPathsHoldMerge | daemon/merge.go:744-992 | so a regular file that both sides changed holds the byte-level merge, at every path, with shortcuts and without |
| MergePaths.PathsAreKept | daemon/merge.go:461-519 | what a side has at a path is lost only if the other side deleted it or something on the way, and what it lacks comes only if the other added, unless the two clash on the way: another type, or directories of different files |
| SkipPaths.SkipsListedIff | daemon/merge.go:368-391 | a name is skipped exactly if its path is listed, for every list, if and only if no name on the path is the beginning of the next one |
| SkipPaths.SkipsTooMuch | daemon/merge.go:380-385 | listing "ab" also skips "ab" in the directory "a" |
| SkipPaths.SkippedRecord | daemon/merge.go:406-476 | at a skipped path the merge has local's record, but remote's whole directory where only remote changed one above it |
| SkipPaths.ListedKeepsLocalIff | daemon/merge.go:406-476 | so a listed path keeps local's record if and only if no shortcut overtakes it, or remote has the same |
| SkipPaths.ShortcutIgnoresSkip | daemon/merge.go:406-436 | a file that is to be left alone is replaced by remote's, since local left its directory unchanged |
| MergeLinks.HardlinkTracker.CheckLinkChanged | daemon/merge.go:123-154 | a leg taken counts one more, a leg replaced one less, for all file ids at once; panics exactly if an entry is missing |
| MergeLinks.HardlinkTracker.TraverseSubtree | daemon/merge.go:85-105 | in any order of the records, every leg below a key is added or removed exactly once; panics exactly if one has no entry |
| MergeLinks.ChangeIsSumOfNames | daemon/merge.go:455-519 | the change of a file's count in a directory is the sum of the changes of its names |
| MergeLinks.MergeOneRecord | daemon/merge.go:744-840 | merging one record returns the merged record and corrects the counts by the legs below it, less the uncounted ones |
| MergeLinks.MergeRemoteName | daemon/merge.go:461-501 | the body of the loop over remote's records: merged record and correction of one name |
| MergeLinks.MergeRemoteRecords | daemon/merge.go:461-501 | the loop over remote's records, in any order, makes those names final and their corrections complete |
| MergeLinks.DropDeleted | daemon/merge.go:503-519 | the loop over base's records, in any order, drops exactly what only remote deleted, with its leg |
| MergeLinks.MergeTree | daemon/merge.go:395-528 | mergeDirectory through shortcut, skip and deep paths: when it panics; otherwise the merged tree, and every count changed by the legs gained and lost, less the uncounted ones |
| MergeLinks.KnownIsChecked | daemon/merge.go:395-528 | if the table has all legs of both sides, the walk panics if and only if it hands two files to mergeFile of which the shorter is overlong |
| MergeWorkspace.NewHardlinkTracker | daemon/merge.go:30-83 | the tracker starts from local's counts, zero for files only remote has, with merged records |
| MergeWorkspace.LinkRecordsAreMerged | daemon/merge.go:30-83 | the record of every hardlinked file after a merge: of a file that one side has, that side's; of one that one side left as in the base, the other's; of one that both changed, the byte-level merge; attributes as of any record |
| MergeWorkspace.FilterDeadEntries | daemon/merge.go:109-120 | exactly the entries without legs go |
| MergeWorkspace.MergeWorkspaceRoot | daemon/merge.go:274-338 | the merged root with every final count, or a panic: in a byte-level merge, on a leg without entry, or on a negative count |
| MergeWorkspace.MergedLegsAreKnown | daemon/merge.go:395-528 | a merged tree has no legs of files that neither side knows |
| MergeWorkspace.DriftWithinLegs | daemon/merge.go:461-519 | of the uncounted legs no more come than the merged tree has |
| MergeWorkspace.CountsStayPositive | daemon/merge.go:109-120 | from a consistent local side the assertion in filterDeadEntries never fails, whatever the merge leaves uncounted |
| MergeWorkspace.ConsistentSidesMerge | daemon/merge.go:274-338 | a merge of consistent sides panics if and only if one of its byte-level merges does, of a hardlinked file or of files that the walk reaches |
| MergeWorkspace.ConsistentIffNoDrift | daemon/merge.go:30-145 | from consistent sides, the merged table counts exactly the legs of the merged tree if and only if no unwalked subtree held uncounted legs |
| MergeWorkspace.WalkedHasNoDrift | daemon/merge.go:461-519 | enough for that: wherever the merge does not descend, no directory with legs is dropped or taken |
| MergeWorkspace.DeletedDirectoryKeepsCount | daemon/merge.go:503-519 | from consistent workspaces, of which remote deleted a directory with a leg, comes one whose table still counts it |
| MergeWorkspace.ReplacedByDirectoryDropsCount | daemon/merge.go:744-840 | from consistent workspaces, of which remote replaced a file by a directory with a leg, comes one whose table lacks the leg |
| WorkspaceRuns.InstalledRootMergesPredecessor | daemon/mux.go:555-619 | every root that replaces another is of a client of the same incarnation and merges its work with its immediate predecessor, however stale the fetch, or is the error root of such a merge that panicked |
| WorkspaceRuns.PublishesIffCurrent | backends/processlocal/workspacedb.go:354-385 | a publish installs the client's root if and only if nonce and base are the database's, and otherwise changes nothing |
| WorkspaceRuns.RefreshedPublishes | workspacedb.go:128-141 | a client that has refreshed publishes what it then edits |
| WorkspaceRuns.FetchedIsInstalled | daemon/mux.go:580-615 | a merge with the root that was just fetched is installed |
| WorkspaceRuns.RecreatedIsNotAdvanced | daemon/mux.go:580-612 | between the moment a workspace is created anew and a client's next refresh no step of that client changes the root or reads it to merge with, even if the new root is the one it knows |
| WorkspaceRuns.ClientsFollowSteps | daemon/workspaceroot.go:269-290 | a step leaves all other clients alone, and of its own client only a refresh, an edit and a publish that succeeds change base and work |
| WorkspaceRuns.InstalledNames | daemon/merge.go:455-519 | its names are (L - (B - R)) + (R - B), or README alone |
| WorkspaceRuns.StepLosesOnlyDeletedIff | daemon/merge.go:231-272 | a step loses only names that its client had deleted if and only if it installs no error root, or one over nothing else |
| WorkspaceRuns.NoLostAdditions | workspacedb.go:128-141 | over every run of any number of clients a name vanishes only if a publishing client whose base held it had deleted it, or a merge panicked; it appears only if one added it, or as such a README |
| WorkspaceRuns.NoLostPaths | workspacedb.go:128-141 | over every run, at every depth: a path vanishes from the root only if a publishing client deleted it or something on the way, a merge panicked, or a merge clashed on the way; it appears only likewise |
| WorkspaceRuns.ConsistentRunsLoseNothing | daemon/mux.go:555-619 | in runs with correct counts every merge that panics does so over the bytes of a file, a name vanishes only if a publishing client deleted it or such a merge replaced the root, and appears only likewise |
| WorkspaceRuns.PanicLosesNames | daemon/merge.go:231-272 | a run from consistent roots in which a name that nobody deleted is lost to a panic |
| WorkspaceRuns.TruncatedMergePanicsIff | daemon/merge.go:857-941 | one client cut a file and another left a longer one: their merge panics if and only if more is stored of the cut file than of the longer one where the merge looks, and never if the cut file is clean |
| WorkspaceRuns.TruncationLosesNames | daemon/merge.go:231-272 | for all such files a run in which every root counts its hardlinks correctly, having none, and which ends with all names lost and none deleted |
| WorkspaceRuns.SomeTruncationLosesNames | daemon/multiblockfile.go:240-285 | there is such a run: three bytes cut to one against two bytes |
| WorkspaceRuns.RootsStayConsistent | daemon/mux.go:555-619 | if no merge has uncounted legs, every root of every run counts its hardlinks correctly |
| FileContent.BufferWriteOverlays | daemon/datastore.go:236-272 | buffer.Write pads with zeros and overlays what fits into the block |
| FileContent.TruncateResizes | daemon/multiblockfile.go:240-285 | truncate gives the new length and keeps the common prefix; a clean file is resized exactly |
| FileContent.TruncateCleanIff | daemon/multiblockfile.go:240-285 | a shrunk file is clean if and only if its last block was held, or ends by the cut anyway |
| FileContent.RegrowthZeroFillsIff | daemon/multiblockfile.go:240-285 | every later extension by truncate fills with zeros if and only if no nonzero byte is left behind the end |
| FileContent.RewriteKeepsLengthIff | daemon/multiblockfile.go:165-180 | rewriting a byte of the last block keeps the length if and only if the file is clean |
| FileContent.StaleByteReturns | daemon/multiblockfile.go:240-285 | a two-byte file cut to one byte and grown back shows its second byte again |
| FileContent.FromSmallKeepsContent | daemon/smallfile.go:167-188 | the blocks made from a small file have its content |
| FileRanges.ReadRangeSlice | daemon/file.go:391-465 | a read from within the file shows all that is stored from there on, as far as the buffer goes |
| FileRanges.ReadIsContentIff | daemon/file.go:430-465 | it returns exactly the content if and only if the range does not run across the end of a file with something stored behind |
| FileRanges.ReadsAreContentIff | daemon/multiblockfile.go:92-138 | all reads do if and only if the file is clean or ends with an empty block |
| FileRanges.ReadReturnsStaleByte | daemon/multiblockfile.go:92-138 | a file of three bytes cut to one returns two bytes |
| FileRanges.WriteFromRaw | daemon/file.go:391-517 | a write over several blocks replaces what it covers of all that is stored, and sets the length |
| FileRanges.WriteIsOverlayIff | daemon/multiblockfile.go:140-180 | it leaves exactly the zero-padded content overlaid with the buffer if and only if it stays before the last block, or covers what is stored behind the end but for zeros before it |
| FileRanges.WriteCleans | daemon/multiblockfile.go:140-180 | a write that reaches the last block leaves nothing behind the end |
| FileRanges.CleanIsExact | daemon/file.go:391-517 | a clean file is read and written exactly |
| FileRanges.WriteBringsBackStaleByte | daemon/multiblockfile.go:165-172 | a write at the end of a file of three bytes cut to one brings back the third |
| FileAccess.MultiBlockFile.ExpandTo | daemon/multiblockfile.go:60-71 | new blocks are holes |
| FileAccess.MultiBlockFile.ReadBlock | daemon/multiblockfile.go:92-138 | copies what is readable into the buffer, zero-filled to the expected size, and nothing else; fails exactly past the block size |
| FileAccess.MultiBlockFile.WriteBlock | daemon/multiblockfile.go:140-180 | the view changes by one block write; fails exactly on too high an index or offset or no data, and panics exactly on the index equal to the maximum |
| FileAccess.MultiBlockFile.FileLength | daemon/multiblockfile.go:182-185 | the length of the view; without blocks it wraps around |
| FileAccess.MultiBlockFile.Truncate | daemon/multiblockfile.go:240-285 | the view is truncated, cutting the last block only if it is held |
| FileAccess.MultiBlockFile.Sync | daemon/multiblockfile.go:211-238 | in any order of the held blocks: the content is unchanged, nothing is held, and the key names the view |
| FileAccess.MultiBlockFile.Reload | daemon/multiblockfile.go:195-209 | the view becomes what the key names |
| FileAccess.StoredViewIsStable | daemon/multiblockfile.go:195-238 | what a key names does not change as the store grows |
| FileAccess.SmallFile.GetBuffer | daemon/smallfile.go:34-50 | read access to the content |
| FileAccess.SmallFile.GetBufferToDirty | daemon/smallfile.go:52-66 | a private copy of the content |
| FileAccess.SmallFile.ReadBlock | daemon/smallfile.go:68-91 | copies the content from the offset on |
| FileAccess.SmallFile.WriteBlock | daemon/smallfile.go:93-115 | overlays the content; fails exactly on another block, too high an offset or no data |
| FileAccess.SmallFile.Sync | daemon/smallfile.go:130-151 | the content is unchanged; the key names it if and only if it was buffered or has the stored size |
| FileAccess.SmallFile.Reload | daemon/smallfile.go:153-161 | the content becomes what the key names |
| FileAccess.SmallFile.Truncate | daemon/smallfile.go:220-224 | the content is resized |
| FileAccess.SmallFile.ConvertToMultiBlock | daemon/smallfile.go:167-188 | a multi-block file with the same content, of no block or one |
| Files.File.ConvertTo | daemon/smallfile.go:190-218 | upgrading small to medium or large, or medium to large, keeps the view and gives room for the type |
| Files.File.ConvertMedium | daemon/mediumfile.go:41-62 | a medium file becomes a large one with the same view and held blocks |
| Files.File.WriteBlock | daemon/file.go:319-387 | the type is reconciled with the block index in mid-write, then the block is written |
| Files.File.Write | daemon/file.go:467-517 | also when the type changes on the way: the content becomes the zero-padded old content overlaid with the buffer, exactly if nothing is brought back from behind the end; a clean file stays clean |
| Files.File.Sync | daemon/file.go:519-530 | a flush keeps the content, leaves nothing held, only adds to the store, and returns the key of a multi-block file's blocks, or of the block that a small file's content is cut or filled from |
| Files.File.Read | daemon/file.go:430-465 | returns content[offset..min(offset + size, length)], exactly if the range does not run across the end of a file with something behind |
| Files.File.Truncate | daemon/file.go:156-205 | the type is reconciled with the new last block and the file truncated: new length, common prefix, exact resizing of a clean file |
| HardlinkTable.HardlinkDelta.Inc | daemon/hardlinkdelta.go:36-40 | one addition more |
| HardlinkTable.HardlinkDelta.Dec | daemon/hardlinkdelta.go:42-46 | one deletion more |
| HardlinkTable.HardlinkDelta.PopulateFrom | daemon/hardlinkdelta.go:52-62 | in any order, the sum of both deltas, leaving the other empty |
| HardlinkTable.HardlinkTableImpl.HardlinkInc | daemon/hardlinktable.go:152-165 | the entry's delta goes up and it awaits one delta more |
| HardlinkTable.HardlinkTableImpl.HardlinkDec | daemon/hardlinktable.go:167-198 | the entry's delta goes down; tells whether no effective link is left |
| HardlinkTable.HardlinkTableImpl.NewHardlink | daemon/hardlinktable.go:211-243 | a new entry with one link and its inode |
| HardlinkTable.HardlinkTableImpl.UpdateHardlinkInodeId | daemon/hardlinktable.go:327-355 | an entry without inode gets one; the result is the entry's |
| HardlinkTable.HardlinkTableImpl.Apply | daemon/hardlinktable.go:450-474 | in any order of the file ids, all deltas are absorbed at once and entries without links and awaited deltas go |
| HardlinkTable.AbsorbStep | daemon/hardlinktable.go:450-474 | absorbing one file id after the other comes to absorbing all |
| HardlinkTable.JoinStep | daemon/hardlinkdelta.go:52-62 | likewise for joining deltas |
| LinkProtocol.StepBalance | daemon/hardlinktable.go:22-35 | every step keeps the balance of every file: nlink + delta = legs, delta = sum of additions less deletions, numDeltas = sum of both |
| LinkProtocol.StepInodes | daemon/hardlinktable.go:201-243 | every step keeps inodeToLink the inverse of the entries' inode ids |
| LinkProtocol.StepKeepsInv | daemon/directory_DOWN.go:19-111 | link, unlink, overwrite, normalize, leg move, flush, apply and orphaning keep both |
| LinkProtocol.Conservation | daemon/hardlinktable.go:22-35 | so it is in every state of every run |
| LinkProtocol.ListedIffUsed | daemon/hardlinktable.go:22-35 | the table lists exactly the files with a leg, a promised leg or a pending delta |
| LinkProtocol.NothingDangles | daemon/hardlinkleg.go:51-59 | in every run every leg and every pending delta finds its table entry |
| LinkProtocol.LegsFollowSteps | daemon/directory_DOWN.go:319-336 | a renamed leg is found at its new place and not at its old one, in place of what was there; only naming operations put and take legs, and a rename changes no count but the overwritten file's |
| LinkProtocol.LegsAreNamed | daemon/hardlinktable.go:22-35 | in every state of every run the legs are where these operations put them |
| LinkProtocol.DeltasFollowSteps | daemon/directory.go:1966-1996 | a delta is made in the directory of its leg, and a flush moves a directory's deltas to its parent, or to the table below the root |
| LinkProtocol.InodesFollowSteps | daemon/hardlinktable.go:327-507 | a loaded leg gives its entry an inode if it has none, and a normalized file has none left |
| LinkProtocol.OrphanPinsEntry | daemon/hardlinktable.go:450-474 | a directory removed while it holds a delta pins the entry of the file for as long as it does not come back |
| LinkProtocol.NoOverDecrement | daemon/hardlinktable.go:167-198 | every leg has an entry, and the over-decrement panic is reached if and only if the number of its legs, promised ones included, is a multiple of 2^32 |
| LinkProtocol.RemovedOnlyWhenUnused | daemon/hardlinktable.go:450-474 | an entry is removed only by a flush to the root or a publish, and only when no leg and no delta of it is left |
| LinkProtocol.BubblingIsInvisible | daemon/directory.go:1384-1403 | flushing and applying do not change the link count users see |
| LinkProtocol.FlushAllSettles | daemon/directory.go:1967-1980 | flushing leaf to root leaves deltas at the root only |
| LinkProtocol.Quiescence | daemon/hardlinktable.go:22-35 | after that and a publish, nlink is the number of legs for every file |
| LinkProtocol.NewHardlinkIffUnused | daemon/hardlinktable.go:211-243 | newHardlink's assertion holds if and only if the file has no leg, no promised leg and no delta anywhere |
| LinkProtocol.RelinkMustWait | daemon/hardlinktable.go:211-243 | so it fails right after normalizing |
| LinkProtocol.RelinkAfterPublish | daemon/hardlinktable.go:211-243 | and holds for every file without legs once all directories have flushed and the root has published |
| ChildContainer.GroupAdd | daemon/childcontainer.go:63-76 | addToMap on the nested map is setting one name in the flat view |
| ChildContainer.GroupRemove | daemon/childcontainer.go:50-61 | removeFromMap takes out just the one name, and its assertion holds |
| ChildContainer.SetGood | daemon/childcontainer.go:142-176 | setting a record keeps the invariant: effective has no hardlinks, no record is there twice, only hardlinks share inodes |
| ChildContainer.LoadGood | daemon/childcontainer.go:107-134 | so does loading one |
| ChildContainer.PublishKeepsUser | daemon/childcontainer.go:394-415 | makePublishable leaves users' map unchanged and publishes what users see |
| ChildContainer.PublishGood | daemon/childcontainer.go:394-415 | and keeps the invariant |
| ChildContainer.RemoveGood | daemon/childcontainer.go:261-279 | removing a name keeps the invariant |
| ChildContainer.RenameMovesUser | daemon/childcontainer.go:281-307 | renaming moves users' record and inode to the new name; only hardlinks stay published |
| ChildContainer.OnlyUserRecord | daemon/childcontainer.go:312-336 | no other name shows the record users see, and neither does the publishable view if it is effective |
| ChildContainer.Container.LoadChild | daemon/childcontainer.go:107-134 | a record enters the publishable view |
| ChildContainer.Container.SetRecord | daemon/childcontainer.go:142-176 | a record enters the effective view, a hardlink the publishable one |
| ChildContainer.Container.RecordByName | daemon/childcontainer.go:185-206 | finds what users see, or nothing for an unknown name |
| ChildContainer.Container.DeleteChild | daemon/childcontainer.go:261-279 | removes the name from both views and hands back users' record, which is in no view any more |
| ChildContainer.Container.RenameChild | daemon/childcontainer.go:281-307 | the renamed record goes back in; a hardlink gets a new creation time |
| ChildContainer.Container.ModifyChildWithFunc | daemon/childcontainer.go:312-336 | users see the change under one name of the inode and no other; what is published changes only for a hardlink |
| ChildContainer.Container.AllRecords | daemon/childcontainer.go:378-392 | exactly users' map |
| ChildContainer.Container.MakePublishable | daemon/childcontainer.go:394-415 | the effective record replaces the published one, users see the same as before, and records still carry their names |
| ChildContainer.Container.SetID | daemon/childcontainer.go:417-428 | users' record gets the key and is published |
| DirectoryPublish.SortSorts | datastore.go:345-362 | records with distinct names end up in the sorting order |
| DirectoryPublish.SortOrders | datastore.go:345-362 | that is by file id, and within one by name: a proper beginning first, or else the smaller character where they first differ |
| DirectoryPublish.SortedUnique | datastore.go:345-362 | there is one sorted sequence of a set of records |
| DirectoryPublish.NewDirectoryEntry | datastore.go:311-321 | capacity is split into this block and a rest, full blocks first |
| DirectoryPublish.FillingAppend | daemon/directory.go:396-430 | each index that SetEntry gets is below the capacity of its block |
| DirectoryPublish.PublishDirectoryRecords | daemon/directory.go:381-430 | the loop stores the chain of blocks of the sorted records under the returned key |
| DirectoryPublish.ReadDirectory | daemon/directory.go:55-75 | following the chain yields exactly the published records |
| DirectoryPublish.PublishIsCanonical | daemon/directory.go:396-430 | the key depends on the set of records only |
| DirectoryPublish.SameKeySameRecords | daemon/directory.go:396-430 | and equal keys come from equal sets |
| CombiningCache.EvictsLeastRecent | daemon/datastore.go:518-526 | eviction takes the shortest stretch of least recently used buffers that makes room |
| CombiningCache.StoreAccounted | daemon/datastore.go:460-534 | whatever is stored, free space and listed buffers make up the capacity and eviction never runs out of elements |
| CombiningCache.GetAccounted | daemon/datastore.go:421-458 | so for a lookup |
| CombiningCache.GetOneToOne | daemon/datastore.go:421-458 | a lookup keeps filled entries and list elements in one-to-one correspondence |
| CombiningCache.LastUsedIsAtBack | daemon/datastore.go:427-433 | what was looked up or stored last is the last to be evicted, and the others keep their order |
| CombiningCache.StoreOneToOneIff | daemon/datastore.go:460-534 | a store does if and only if it does not drop a filled entry |
| CombiningCache.DeliverOnce | daemon/datastore.go:468-476 | each waiter is sent one answer |
| CombiningCache.StepKeepsInvIff | daemon/datastore.go:399-534 | a step keeps the invariant of cache, fetches and requests if and only if it drops no filled entry and does not shut down on waiters |
| CombiningCache.SafeRuns | daemon/datastore.go:399-534 | in every such run the capacity is kept, no request is answered twice or with anything but what a fetch of its key came to or was set, and one without an answer has a fetch under way |
| CombiningCache.FetchesAreCombined | daemon/datastore.go:421-458 | of a key that is never set at most one fetch is under way at a time, however many ask, and of others one more for each set |
| CombiningCache.FailedFetchOrphans | daemon/datastore.go:478-482 | a fetch that fails after the block was set leaves an element without entry |
| CombiningCache.RequestIsLost | daemon/datastore.go:518-526 | whose eviction loses a later request: no continuation ever answers it |
| CombiningCache.CombiningCacheImpl.Lookup | daemon/datastore.go:421-458 | a hit, or a place among the waiters and perhaps a new fetch |
| CombiningCache.CombiningCacheImpl.StoreInCache | daemon/datastore.go:460-534 | answers exactly the waiters of the key; the loop evicts as specified |
| CombiningCache.CombiningCacheImpl.Shutdown | daemon/datastore.go:409-417 | empties the cache and leaves room for nothing |
| InodeIds.TestHighmarkKeeps | daemon/inodeids.go:97-107 | the mark goes down, by a tenth, exactly after an idle period while it is above the least, and never into the reserved ids |
| InodeIds.IdleMarkGoesDown | daemon/inodeids.go:97-107 | left idle long enough it goes all the way down |
| InodeIds.FirstFree | daemon/inodeids.go:109-122 | the least id from the mark on that is not taken |
| InodeIds.DrainTakes | daemon/inodeids.go:50-72 | the reuse loop takes only rested ids, and but for the one it hands out none below the mark |
| InodeIds.RetryIsNewId | daemon/mux.go:1224-1249 | asking again while the fresh id is busy yields the least id from the mark on that neither rests nor is busy |
| InodeIds.NewIdIsFree | daemon/inodeids.go:45-78 | a new id is not reserved, not in use, not resting, and fresh only if no id on the list has rested enough |
| InodeIds.AllocateKeepsInv | daemon/inodeids.go:45-78 | allocating keeps the list duplicate-free, in order, apart from the ids in use and complete for resting ids |
| InodeIds.FreeKeepsInv | daemon/inodeids.go:80-92 | so does releasing, and the double push cannot happen |
| InodeIds.EveryIdIsFree | daemon/inodeids.go:45-145 | after any run the next id is neither reserved nor in use, and an id released below the mark comes back no sooner than its delay |
| InodeIds.ComesBackIffAboveTheMark | daemon/inodeids.go:80-92 | after any release an id can come back at that very instant if and only if it is not below the mark, however long the delay |
| InodeIds.InodeIdsImpl.TestHighmark_ | daemon/inodeids.go:97-107 | the mark decays after an idle period, not into the reserved ids |
| InodeIds.InodeIdsImpl.AllocateFreshId_ | daemon/inodeids.go:109-122 | the search ends at the least id from the mark on that does not rest |
| InodeIds.InodeIdsImpl.NewInodeId | daemon/inodeids.go:45-78 | as specified; list and map agree |
| InodeIds.InodeIdsImpl.ReleaseInodeId | daemon/inodeids.go:80-139 | an id below the mark is put to rest once |
| InodeIds.NewInodeId | daemon/mux.go:1224-1249 | the retry loop ends, with the id specified for the ids in use |
| Refcounts.LastReference | daemon/inode.go:904-921 | the last reference is only given back when nothing holds the inode |
| Refcounts.DelRefKeepsInv | daemon/inode.go:904-962 | giving back a reference keeps all others counted, however far the cascade of parents goes, and it ends |
| Refcounts.OnlyAncestorsGo | daemon/inode.go:904-962 | only the inode and ancestors of it are uninstantiated |
| Refcounts.LookupKeepsInv | daemon/mux.go:1070-1093 | the first lookup holds a reference |
| Refcounts.ForgetKeepsInv | daemon/mux.go:1108-1153 | the last forget gives it back |
| Refcounts.InstantiateKeepsInv | daemon/mux.go:826-958 | instantiation with its speculative reference keeps all references counted |
| Refcounts.NotFoundKeepsInv | daemon/mux.go:845-857 | a failed lookup leaves an extra reference, which does no harm |
| Refcounts.MoveKeepsInv | daemon/inode.go:589-630 | a new parent, or none |
| Refcounts.CreateKeepsInv | daemon/directory.go:740-785 | a new inode |
| Refcounts.StepKeepsInv | daemon/mux.go:787-1196 | every step keeps references at least the holders, and parents, handles, queue elements and temporary references on instantiated inodes |
| Refcounts.NothingGoesTooSoon | daemon/inode.go:583-635 | after any run every inode in use and every parent is instantiated, and counts are at least the holders and at least one |
| Refcounts.ReferencesAreExact | daemon/inode.go:886-962 | after any run the references of an inode are exactly its lookups, handles, queue elements, running code and children, and those left behind by failed lookups and failed flushes |
| Refcounts.LookupsAreTallied | daemon/mux.go:1070-1153 | the recorded count is the number of lookups, creation included, less all that was forgotten, and there is one exactly while that is positive |
| Refcounts.LookedUpStays | daemon/mux.go:1108-1153 | an instantiated inode is not uninstantiated by any step, a forget or another, while lookups of it remain |
| Refcounts.ParentsFollowSteps | daemon/inode.go:589-630 | only operations on an inode change its parent, to the one asked for |
| Refcounts.InstantiateWaits | daemon/mux.go:826-958 | an instantiated inode waits no longer, and the children that were loaded wait for theirs |
| Refcounts.WaitsAtParent | daemon/inode.go:922-950 | an inode that went waits at its parent unless that went too, and of all others exactly those stay waiting whose parent does |
| Refcounts.ForgetSafeIff | daemon/mux.go:1108-1153 | a forget leaves all references counted if and only if there was a lookup to forget or a reference to spare, whether handles, queue elements, running code or only children hold the inode |
| Refcounts.StolenReference | daemon/mux.go:1108-1153 | otherwise a holder is left without: on an inode that is gone, below a parent that is gone, or uncounted |
| Refcounts.OrphanIsLeftWaiting | daemon/inode.go:928-932 | exactly an orphan is left waiting at itself when its last reference goes |
| Refcounts.QuantumFs.AddRef_ | daemon/inode.go:892-902 | the assertion that the count was not zero holds |
| Refcounts.QuantumFs.DelRef_ | daemon/inode.go:904-962 | the recursion in place does as specified and keeps the invariant |
| Refcounts.QuantumFs.IncrementLookupCount_ | daemon/mux.go:1070-1093 | likewise |
| Refcounts.QuantumFs.SetParent_ | daemon/inode.go:589-601 | likewise; the old parent is there |
| Refcounts.QuantumFs.Orphan_ | daemon/inode.go:615-630 | likewise; the old parent is there |
| Refcounts.QuantumFs.ShouldForget | daemon/mux.go:1108-1153 | likewise, in 64 bits, with a lookup or a reference to spare; tells whether no lookup is left |
| DirtyQueue.DirtyKeepsInv | daemon/flusher.go:560-606 | dirtying gives an inode its one element |
| DirtyQueue.StepKeepsInvIff | daemon/flusher.go:213-303 | a step keeps all unsaved changes on their way if and only if no flush ends as a success that has not saved what nobody else will |
| DirtyQueue.NoLostModification | daemon/flusher.go:213-303 | over every interleaving unsaved changes have an element, an inode has at most one besides the one being flushed, and an empty queue means that all is saved and only leaked references remain |
| DirtyQueue.ChangesWaitForTheirSave | daemon/flusher.go:213-303 | a change waits from its modification to the save of a flush of its own inode, every touch queues the inode, and only the start of its flush takes it off |
| DirtyQueue.MoveToBackOrders | daemon/flusher.go:417-426 | moving to the back puts an inode after all others and leaves their order alone |
| DirtyQueue.RequeueOrders | daemon/flusher.go:383-414 | requeueing orders an inode and all its ancestors, child before parent |
| DirtyQueue.SortsTopologically | daemon/flusher.go:435-467 | after the sort every inode on the queue but the skipped ones precedes its parent, and nothing is lost |
| DirtyQueue.DirtyQueueImpl.Dirty_ | daemon/inode.go:658-663 | a new element and reference unless there is one |
| DirtyQueue.DirtyQueueImpl.MoveToBackOfQueue_ | daemon/flusher.go:417-426 | as specified |
| DirtyQueue.DirtyQueueImpl.Requeue_ | daemon/flusher.go:383-414 | the loop goes up to the top |
| DirtyQueue.DirtyQueueImpl.SortTopologically_ | daemon/flusher.go:435-467 | both loops together leave the queue in flushing order |
| DirtyQueue.DirtyQueueImpl.StartFlush_ | daemon/flusher.go:213-232 | the inode is marked clean before its flush |
| DirtyQueue.DirtyQueueImpl.FinishFlush_ | daemon/flusher.go:234-303 | the element goes, or becomes the inode's again; loses a change exactly if a success has saved nothing |
| AccessList.NetEffect | daemon/accesslist.go:118-161 | listed as created exactly if absent at the start and present at the end, as deleted exactly if the reverse |
| AccessList.SinceIsLast | daemon/accesslist.go:118-161 | what counts for a file are the operations after the last one that restored it |
| AccessList.FileEntry | daemon/accesslist.go:118-161 | a file's entry tells reads and updates since then, a recreated file is updated, a temporary one is not listed |
| AccessList.DirectoryEntry | daemon/accesslist.go:118-161 | a directory's entry tells the reads and updates since it was last recreated unread, or, if it is new, since it last went; without any it is not listed |
| AccessList.DirectoryRead | daemon/accesslist.go:136-149 | so one present at the start is listed as read exactly if it ever was, and one recreated unread is not listed |
| AccessList.AccessListImpl.MarkAccessed | daemon/accesslist.go:85-109 | changes the entry of the one path |
| AccessList.AccessListImpl.MarkHardlinkAccessed | daemon/accesslist.go:55-83 | changes the entry of the one file and never removes it |
| AltLock.StepKeepsInv | utils/altlocker.go:19-47 | the counter is the number of counted threads, and the b lock is held exactly while it is positive, just before the first count and just after the last |
| AltLock.Exclusion | utils/altlocker.go:19-47 | in every interleaving a-side holders and b-side readers never coexist, and the counting panic is unreachable |
| AltLock.NoDeadlock | utils/altlocker.go:19-47 | some thread can always go on |
| AltLock.WaiterIsNotOvertaken | utils/altlocker.go:19-47 | while a thread waits for the b lock, whoever reads did so when it began to wait |
| AltLock.ReadersLetGo | utils/altlocker.go:19-47 | a thread that waits for the b lock waits for readers only, who finish without the mutex |

## Left out

- Extended attributes: their merge (daemon/merge.go:536-624) is an uninterpreted function of the three keys; the laws compare trees up to them.
- Very large files: the model stops at large files; the file type for more blocks than a large file holds is an error of the caller.
- Files.File.Write: requires that a large file can hold the last block, since very large files are left out.
- Files.File.WriteBlock: requires a block index that a large file can hold, for the same reason.
- Files.File.Truncate: requires a length that a large file can hold, for the same reason.
- Files.File.Sync: the record in the parent directory that takes the returned key is not part of the model of a file.
- Files.File.Read: reads into an array; growing the caller's buffer is not modelled.
- FileAccess.MultiBlockFile.ExpandTo: requires a length within the maximum, beyond which the source panics.
- FileAccess.MultiBlockFile.Truncate: requires that the new last block is within the maximum, as the caller's reconciliation of the type provides.
- FileAccess.SmallFile.Truncate: requires a length of at most one block, as the caller's conversion provides.
- FileMerge.MergeFiles: requires separate accessors, and record sizes that match the lengths of the files, as published records have them.
- Accessors: a conversion shares the held blocks or the buffer between old and new accessor in the source; the model copies them, so writes through the old accessor afterwards are not captured.
- Buffers: capacity handling of appendAndExtendCap is not modelled; block data is a sequence.
- Datastore: reads never fail, and the key of a block is an injective function of type and content; in the tree merge a key is what it names, stored blocks or records.
- Sorting: sort.Slice is modelled by an insertion sort; only that the result is sorted matters.
- HardlinkTable: the records in table entries, effective and publishable, and their times are not modelled.
- ChildContainer.Container.ModifyChildWithFunc: a hardlink leg holds attributes of its own here, while in the source they live in the hardlink table and all legs share them.
- ChildContainer: inode generations, and publishableRecords as a list, are left out.
- ChildContainer.Container.SetRecord: requires what the asserts of addToMap and the callers provide: a name without effective record, bound to no other inode, and shared inodes for hardlinks only.
- InodeIds: the mark decays by integer division in place of a float64 product; time stands still during one call; ids do not wrap around at 2^64.
- InodeIds.NewInodeId: registering the id as in use is part of the same step.
- Refcounts: each operation is one step; asynchronous releases are steps of their own; a fresh inode id has no lookups left from an earlier use; reparenting an orphan, which would take its reference from itself, is excluded.
- Refcounts: a lookup count does not overflow 64 bits upwards.
- Refcounts.QuantumFs.SetParent_: excludes orphans for that reason.
- Refcounts.QuantumFs.ShouldForget: requires a recorded lookup or a reference to spare; ForgetSafeIff tells what happens otherwise.
- DirtyQueue: expiry times, the kicker and trigger channels, and several workspaces are left out; reparenting during a sort is not modelled.
- WorkspaceRuns: the merge of a client is one step between its fetch and its advance; a merge that returns an error, and a panic that cannot be recovered, end in no step; that the workspace becomes immutable after a panic is not modelled.
- AccessList: generate, which joins paths and hardlinks, is left out.
- AltLock: recursion and misuse of the locks are left out.
- Refresh, FUSE requests, API commands, permissions, logging, lock order checking, the uploader of the merge, and the client library are left out: plumbing, or code that depends on the kernel.
