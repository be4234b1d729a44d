# oGRAC: checkpoint, redo backup, clocks and schema migration

oGRAC is a shared-storage database run by several nodes at once. This project models the parts of it
whose correctness rests on several functions together, and proves what they promise.

* **Earlier-dirty pages (EDP).** When a page moves between nodes, the nodes that had dirtied it earlier keep
  a stale copy until the current owner has written it. `EdpPages`, `EdpMerge` and `EdpIntake` hold an owner's
  bounded sorted group of such pages, the in-place merge into it and the retry loop around the merge.
  `EdpRouting` is the message protocol that takes a request from the requester through the masters to the
  owners, as a state machine over arbitrary runs; `EdpHandover` says what it hands to each node in terms of the
  requested entries and the owner lookup, and `EdpDelivery` joins it to the intake.
  `CkptPass` is the checkpoint's pass over the group.
  `RedoStat` is the redo arithmetic and the ring it is recorded in.
* **Backup and restore of redo.** `ArchiveSelect` selects archived redo by LSN from a directory in any
  order, `BackupCoverage` adds what only the live log holds, `OverlapTrim` cuts at byte level what a backup
  set already has, and `RestoreChain` continues a restored backup set through the archives. An archive covers
  the LSNs in (start, end].
* **Lamport clocks.** `LamportClock` has any number of threads raising a node's SCN and LSN, step by step.
  `LogPointTour` is a backup coordinator's tour of the nodes.
* **Schema migration.** `SchemaMigration` gives the generated statements a small semantics (a column list and
  a map of indexes), says when the dictionary is stale and what a new column is owed, and shows what running them does. `VersionScripts` has the per-version scripts between
  releases.

`Basics` holds shared types. Latching, page lookups, device reads, message losses, other threads and clock
ticks are function parameters over which every statement is quantified; `nat`-indexed ones give each attempt
its own answer.

Where the code does not keep a promise, the model follows the code, a lemma gives an input, and another lemma
gives the exact condition:

* An invalid page id met in the middle of a merge loses a group entry (`EdpMerge.RejectedMergeLosesEntry`,
  `EdpMerge.SoundForEveryGroup`).
* A checkpoint group size of 1 or 2 makes the chunk loop endless (`EdpRouting.ChunkLoopEnds`).
* A flush group that fills up drops the entries not yet tried (`CkptPass.DropExample`,
  `CkptPass.SurplusDropped`).
* The LSN update may overshoot every argument (`LamportClock.LsnOvershoots`), which is possible if and only
  if two arguments exceed the clock (`LamportClock.LsnMaximumExact`).
* A log backup may report success without the LSNs between the archives and the lrp point
  (`BackupCoverage.HoleExample`, `BackupCoverage.BackupNode`).
* Archives that cross are replayed twice where they overlap (`RestoreChain.OverlapExample`,
  `RestoreChain.RestoreExact`).
* Without LOAD DICTIONARY in its group a table's changed indexes stay as they were
  (`SchemaMigration.IndexNeverMade`, `SchemaMigration.TableGroup.UpgradeFrom`).
* A degrade check looks for the same file twice, so it accepts an object whose upgrade file is missing
  (`VersionScripts.MissingUpgradeAccepted`, `VersionScripts.ChecksDiffer`).
* A first step present in one direction only is not undone
  (`VersionScripts.OneSidedFirstStep`, `VersionScripts.OneSidedDegrade`, `VersionScripts.DegradeExact`).

The order of a coordinator's tour rests on the largest reply starting no higher than its own LSN. A backup sees
to that (pkg/src/kernel/backup/knl_backup.c:621-622), so its tour is ordered (`LogPointTour.BackupTourOrdered`);
`LogPointTour.StaleStartBreaks` and `LogPointTour.TourNeedsFreshStart` show that the hypothesis is needed.

## Model

| member | source | states |
|---|---|---|
| `EdpPages.Compare` | pkg/src/cluster/dtc_ckpt.c:33-54 | the comparison handed to qsort is a total order on page ids: negative, zero and positive exactly when the first page comes before, is, or comes after the second |
| `EdpPages.OrderedPairwise` | pkg/src/cluster/dtc_ckpt.c:56-65 | a group is sorted exactly when every two positions are in the order the debug check asserts of neighbours, with or without repeated pages |
| `EdpPages.SortPrefix` | pkg/src/cluster/dtc_ckpt.c:67-75 | sorts the first n entries in place, as a permutation, and touches nothing beyond them |
| `EdpMerge.MergeToArray` | pkg/src/cluster/dtc_ckpt.c:77-130 | the in-place merge (sort, shift, insert, tail copy, resume index) computes the value-level merge of the request slice with the sorted group, also when an invalid id stops it |
| `EdpMerge.CopyTail` | pkg/src/cluster/dtc_ckpt.c:112-129 | what follows the loop copies exactly what the value-level merge copies, including the refusal to use the last free place |
| `EdpMerge.MergeCounts` | pkg/src/cluster/dtc_ckpt.c:77-130 | what a merge consumes and adds; it stops short only at one free place or less, and with two or more free places it makes progress |
| `EdpMerge.MergeKeeps` | pkg/src/cluster/dtc_ckpt.c:77-130 | no entry of the group is dropped or changed (page, LSN and action) |
| `EdpMerge.MergePages` | pkg/src/cluster/dtc_ckpt.c:77-130 | the set of pages grows by exactly the pages consumed |
| `EdpMerge.BoundedMergeSound` | pkg/src/cluster/dtc_ckpt.c:77-130 | for every sorted request and group, a merge not stopped by an invalid id leaves the group sorted, within capacity, without loss, enlarged by exactly the pages reported as consumed |
| `EdpMerge.BoundedMergeExact` | pkg/src/cluster/dtc_ckpt.c:77-130 | for a strictly sorted request and a duplicate-free group the result is strictly sorted and is, entry for entry, the old group plus the consumed entries whose page was not there |
| `EdpMerge.MergeAppends` | pkg/src/cluster/dtc_ckpt.c:112-129 | a request that lies wholly after the group is appended as far as it fits, and with one free place left not at all |
| `EdpMerge.RejectedMergeLosesEntry` | pkg/src/cluster/dtc_ckpt.c:89-93 | an invalid id met mid-way reports the request as consumed without writing the count back, and an entry of the group is lost |
| `EdpMerge.SoundForEveryGroup` | pkg/src/cluster/dtc_ckpt.c:89-93 | a sorted request is merged soundly into every sorted group exactly when it holds no invalid page id, and groups of valid ids alone decide it |
| `EdpIntake.MergeIntoGroup` | pkg/src/cluster/dtc_ckpt.c:271-272 | one merge under the lock is recorded truthfully and is sound |
| `EdpIntake.ProcessLocal` | pkg/src/cluster/dtc_ckpt.c:259-291 | the retry loop: each merge resumes where the last one stopped, starts from what the other users left, at most CKPT_TRY_ADD_TO_GROUP_TIMES + 2 merges are made; it ends with the request finished or for a reason that is true: closed, disabled, own session or retries used up; and no merge is made while closed, after the request is in, after a disabled answer, or after the first in the own session |
| `EdpIntake.NoPageSkipped` | pkg/src/cluster/dtc_ckpt.c:259-291 | across any interleaving with the drainer every page before the point reached was put into the group by one of the merges, or given up by one that met an invalid id |
| `EdpIntake.RetriesAdvance` | pkg/src/cluster/dtc_ckpt.c:271-288 | if the drainer leaves at most `kept` entries each time, m merges take in at least m * (capacity - 1 - kept) entries or the whole request |
| `EdpRouting.PickForOwner` | pkg/src/cluster/dtc_ckpt.c:321-340 | picks exactly the entries whose owner lookup names the node or fails, in order, with page and LSN as requested and the action the lookup gave, and changes nothing but action fields of the request |
| `EdpRouting.SendChunks` | pkg/src/cluster/dtc_ckpt.c:348-369 | the chunked sends of one owner batch |
| `EdpRouting.NotifyOwners` | pkg/src/cluster/dtc_ckpt.c:293-374 | sends every live node its own pages of the slice, in chunks, or hands them over locally |
| `EdpRouting.Partition` | pkg/src/cluster/dtc_ckpt.c:389-399 | the swap partition is a permutation that puts exactly the pages mastered elsewhere in front; it fails exactly when a master lookup fails |
| `EdpRouting.BroadcastChunks` | pkg/src/cluster/dtc_ckpt.c:416-431 | the chunked broadcast loop |
| `EdpRouting.MasterProcess` | pkg/src/cluster/dtc_ckpt.c:376-437 | what a node sends for a request: owner batches for the pages it masters and, as requester, a chunked broadcast of the others |
| `EdpRouting.Receive` | pkg/src/cluster/dtc_ckpt.c:449-503 | the two broadcast handlers, with their size and count checks |
| `EdpRouting.RequestTotal` | pkg/src/cluster/dtc_ckpt.c:376-437 | a requester's messages owe each node exactly the request's pages that go to it and have a live master |
| `EdpRouting.MasterTotal` | pkg/src/cluster/dtc_ckpt.c:376-414 | a master's messages owe each node exactly the pages of its own that go to it: the overlap between the broadcast copies is filtered out |
| `EdpRouting.NeverRejected` | pkg/src/cluster/dtc_ckpt.c:449-503 | in no run is a message in flight ever turned away by its receiver: its size is the head plus one entry size for each of its 1 to group-size pages |
| `EdpRouting.DeliveryTotal` | pkg/src/cluster/dtc_ckpt.c:449-503 | whatever a receiver puts in place of a message owes every node exactly what the message owed |
| `EdpRouting.RunsConserve` | pkg/src/cluster/dtc_ckpt.c:293-503 | over every run of requests and deliveries in any order, pages in flight plus pages handed over are exactly the pages requested |
| `EdpRouting.Routed` | pkg/src/cluster/dtc_ckpt.c:293-503 | at every point of every run a node has been handed only entries owed to it, never more often than requested; once nothing is in flight, each exactly as often as requested |
| `EdpRouting.DeliveriesRunOut` | pkg/src/cluster/dtc_ckpt.c:293-503 | in every run of deliveries alone, the number of deliveries is at most the cost of the messages in flight at its start |
| `EdpRouting.CanDeliver` | pkg/src/cluster/dtc_ckpt.c:449-503 | as long as something is in flight, a delivery is possible |
| `EdpRouting.ReachesQuiescence` | pkg/src/cluster/dtc_ckpt.c:293-503 | from every reachable state deliveries lead to a state with nothing in flight |
| `EdpHandover.HandedAreDue` | pkg/src/cluster/dtc_ckpt.c:293-503 | over every run, the pages and LSNs handed to a node are, as a multiset, among those of the requested entries whose page has a live master and whose owner lookup names the node or fails; once nothing is in flight they are exactly those |
| `EdpHandover.HandedIsRequested` | pkg/src/cluster/dtc_ckpt.c:321-340 | over every run, each entry handed over is a requested one with its page and LSN, and carries the action the owner lookup answered, or the clean action when the lookup failed |
| `EdpHandover.BroadcastReaches` | pkg/src/cluster/dtc_ckpt.c:401-431 | a requester's broadcast brings every page mastered elsewhere to every other live node |
| `EdpRouting.ChunkLoopEnds` | pkg/src/cluster/dtc_ckpt.c:419-431 | the chunk loop ends exactly when there is nothing to send or the checkpoint group size is at least 3; for the permitted sizes 1 and 2 it never ends |
| `EdpDelivery.TakeIn` | pkg/src/cluster/dtc_ckpt.c:484-503 | a batch handed over is taken in by the retry loop, from the group as it stands |
| `EdpDelivery.RequestedIsSettled` | pkg/src/cluster/dtc_ckpt.c:259-503 | routing and intake together: once nothing is in flight, every requested entry whose page has a live master and whose owner lookup names a node (or fails) was handed to it with its page and LSN, and its intake put the page into the group, gave it up because of an invalid id, or ended before it for a reason that is named and true |
| `CkptPass.HandleLatched` | pkg/src/cluster/dtc_ckpt.c:562-635 | a latched buffer is passed over, or taken under the conditions of the code: unmarked before and marked after, its notice queued while there is room, the LFN raised; the buffers are the same when encryption or checksum then fails |
| `CkptPass.Scan` | pkg/src/cluster/dtc_ckpt.c:524-640 | the loop: dealt-with entries go to the front, entries that could not be latched to the back, and flush group, notices, LFN and buffers are those the entries tried lead to |
| `CkptPass.CkptContext.RemoteEdpPrepare` | pkg/src/cluster/dtc_ckpt.c:505-651 | after a pass the remote group holds exactly the entries that could not be latched; entries are dropped only when the flush group filled up; no buffer enters the flush group twice; each one taken is an owner and no EDP; a failed pass leaves the group a permutation of itself and one marked buffer outside the flush group |
| `CkptPass.DealMeans` | pkg/src/cluster/dtc_ckpt.c:540-635 | one entry: a page not in memory changes no buffer and is noticed with the LSN asked for; otherwise only the latched buffer changes: an EDP copy is first cleaned (after recovery, for a valid action), then the buffer is taken exactly when it is unmarked, writable, owned, no EDP, of that page and new enough, and ends marked, not dirty, not remote dirty and out of the queue with everything else as it was |
| `CkptPass.BuffersAfter` | pkg/src/cluster/dtc_ckpt.c:524-640 | over any number of attempts in a quiet world: a buffer never visited is unchanged; one visit takes it or leaves it as cleaned; without an EDP copy to clean, any number of visits takes it exactly when one of them may, and leaves it unchanged otherwise |
| `CkptPass.PassBuffers` | pkg/src/cluster/dtc_ckpt.c:505-651 | the same for every successful pass over the remote group, by the buffers it added to the flush group |
| `CkptPass.UnhinderedTakes` | pkg/src/cluster/dtc_ckpt.c:562-640 | if every entry can be latched in a quiet cluster and has an unmarked owner buffer of its own with the right page and LSN, the pass takes every entry it tries |
| `CkptPass.LfnIsLargest` | pkg/src/cluster/dtc_ckpt.c:612-614 | the consistent LFN ends at the largest of its old value and the LFNs of the buffers taken |
| `CkptPass.TakenNotice` | pkg/src/cluster/dtc_ckpt.c:573-589 | while there is room a taken buffer's clean notice carries the copied page's LSN, which after reform recovery is not below the requested one |
| `CkptPass.SurplusDropped` | pkg/src/cluster/dtc_ckpt.c:637-647 | under that same condition, known before the pass, the pass drops exactly the entries beyond the room of the flush group, so it drops none if and only if all of them fit |
| `CkptPass.DropExample` | pkg/src/cluster/dtc_ckpt.c:637-647 | a flush group with one place and two entries: the second is neither flushed nor kept |
| `CkptPass.CkptContext.CleanLocalEdp` | pkg/src/cluster/dtc_ckpt.c:653-692 | one pass tries every entry exactly once, keeps exactly those whose cleaning failed and counts the others |
| `LamportClock.ScnStepKeeps` | pkg/src/cluster/dtc_database.c:267-283 | every step of every thread keeps the lock discipline and never lowers the SCN |
| `LamportClock.ScnNeverGoesBack` | pkg/src/cluster/dtc_database.c:267-283 | for any number of threads and any interleaving, other locked writers included, the SCN never goes back |
| `LamportClock.ScnCallReaches` | pkg/src/cluster/dtc_database.c:267-283 | a finished call leaves the SCN at or above its argument, then and ever after |
| `LamportClock.ScnIsMaximum` | pkg/src/cluster/dtc_database.c:267-283 | with only these calls, once all have finished the SCN is exactly the maximum of its start value and the arguments |
| `LamportClock.SomeCanMove` | pkg/src/cluster/dtc_database.c:267-283 | no deadlock: while a call is unfinished, some call can move |
| `LamportClock.ScnRunIsShort` | pkg/src/cluster/dtc_database.c:267-283 | with only these calls, a run takes at most five steps for each call |
| `LamportClock.ScnFinishes` | pkg/src/cluster/dtc_database.c:267-283 | every run, other writers included, can be carried on until all calls have finished |
| `LamportClock.LsnNeverGoesBack` | pkg/src/cluster/dtc_database.c:285-293 | for any number of threads and any interleaving, with atomic increments by others, the LSN never goes back |
| `LamportClock.LsnCallReaches` | pkg/src/cluster/dtc_database.c:285-293 | a finished call leaves the LSN at or above its argument, then and ever after |
| `LamportClock.LsnIsSum` | pkg/src/cluster/dtc_database.c:285-293 | the LSN is its start value plus exactly what was added, and the calls add at most the sum of their arguments' excess over the start value |
| `LamportClock.LsnBoundReached` | pkg/src/cluster/dtc_database.c:285-293 | for any calls some interleaving ends at exactly that bound |
| `LamportClock.LsnMaximumExact` | pkg/src/cluster/dtc_database.c:285-293 | with only these calls, every interleaving ends at the maximum of start value and arguments if and only if at most one argument exceeds the start value |
| `LamportClock.LsnOvershoots` | pkg/src/cluster/dtc_database.c:285-293 | unlike the SCN, the LSN may end above every argument |
| `LogPointTour.SetLogPoint` | pkg/src/cluster/dtc_backup.c:1279-1309 | the coordinator's loop over the nodes is the tour |
| `LogPointTour.TourBrings` | pkg/src/cluster/dtc_backup.c:1233-1309 | over the whole tour no clock goes back and every node reached ends at least where the coordinator started; the replies are exactly one from each live node that answers, in node order, none below that LSN or above its node's clock; the largest reply is the largest of its start value and all replies |
| `LogPointTour.TourOrdered` | pkg/src/cluster/dtc_backup.c:1233-1250 | if the largest reply starts no higher than the coordinator's LSN, then whatever ticks, losses and refusals happen, no reply is below an earlier one and the coordinator ends at least as high as every reply |
| `LogPointTour.BackupTourOrdered` | pkg/src/kernel/backup/knl_backup.c:621-625 | a backup reads its clock into the largest reply before the tour, so its tour is ordered whatever ticks and failures happen |
| `LogPointTour.StaleStartBreaks` | pkg/src/cluster/dtc_backup.c:1279-1301 | why that start value matters: from a largest reply above the coordinator's LSN, which no backup starts with, the order would break even in a quiet cluster |
| `LogPointTour.TourNeedsFreshStart` | pkg/src/cluster/dtc_backup.c:1279-1301 | for a coordinator at LSN c with some other node replying, the tour is ordered for all clocks and ticks exactly when the largest reply does not start above c |
| `ArchiveSelect.ArchiveBuffer.EnsureRoom` | pkg/src/cluster/dtc_backup.c:2776-2818 | the buffer keeps every entry when it grows, never passes its capacity or 2000, and refuses exactly when 2000 are in use |
| `ArchiveSelect.GetArchInfo` | pkg/src/cluster/dtc_backup.c:2820-2866 | on success the buffer holds exactly the needed archives in listing order and the range found is that of the scan; it succeeds exactly when no unreadable file and no full buffer is met |
| `ArchiveSelect.NeededMeans` | pkg/src/cluster/dtc_backup.c:2698-2736 | an archive is taken exactly when it holds an LSN of the range asked for |
| `ArchiveSelect.GetByAsn` | pkg/src/cluster/dtc_backup.c:2435-2445 | finds the entry with the ASN among the counted ones when there is one, else the last of them |
| `ArchiveSelect.SelectionFindsRange` | pkg/src/cluster/dtc_backup.c:2698-2736 | for any part of a chain, in any order, the start found is the archive that contains the recovery point and the end the largest needed ASN |
| `ArchiveSelect.OrderDoesNotMatter` | pkg/src/cluster/dtc_backup.c:2698-2736 | two listings of the same archives give the same range |
| `ArchiveSelect.CountCheckSound` | pkg/src/cluster/dtc_backup.c:3127-3134 | when the count check passes, the archives taken are a complete run of the chain (pigeonhole over the ASNs) |
| `ArchiveSelect.CountCheckExact` | pkg/src/cluster/dtc_backup.c:3127-3134 | the count check passes exactly when a start and an end were found and no archive between them is missing |
| `ArchiveSelect.CountCheckMeans` | pkg/src/cluster/dtc_backup.c:3127-3134 | where an archive is needed at all, the count check passes exactly when an archive with the recovery point is there and, of all archives ever written that hold an LSN of the range, none is missing before one that is there |
| `BackupCoverage.GetLog` | pkg/src/cluster/dtc_backup.c:2919-2968 | the bytes read are exactly the redo of the LSNs claimed, or nothing at all with one LSN claimed; it reads on until the log ends, the size is used up or the last LSN is reached |
| `BackupCoverage.GetLogfile` | pkg/src/cluster/dtc_backup.c:3039-3079 | a top-up file starts where the archives end, reaches the lrp point and holds exactly that redo; when nothing is added, exactly when that is reported as success; if no read fails and the live log holds the redo up to the lrp point, it succeeds |
| `BackupCoverage.BackupArchives` | pkg/src/cluster/dtc_backup.c:615-632 | backs up the archive with each ASN of the range, in order |
| `BackupCoverage.SelectAndBackup` | pkg/src/cluster/dtc_backup.c:3104-3145 | selection, count check and archive loop together: it succeeds exactly when the scan does and there is no archive or none of the chain is missing, and then gives a gapless run from the recovery point to the end of the needed archive with the largest ASN, and the next ASN |
| `BackupCoverage.ArchivesEndMeans` | pkg/src/cluster/dtc_backup.c:3104-3145 | where that run ends, over the directory: the largest end of the archives that hold an LSN of the range, or the recovery point when there is none |
| `BackupCoverage.BackupNode` | pkg/src/cluster/dtc_backup.c:581-646 | the archives of a node are selected exactly when the scan succeeds and none is missing; a successful backup has no gap between its files and covers every LSN from the recovery point to the lrp point exactly when the needed archives of the directory reach the lrp point or the live log holds the LSN that follows them; with archives selected, no failed read and the redo there, it succeeds and covers everything |
| `BackupCoverage.CoverageExact` | pkg/src/cluster/dtc_backup.c:2447-2486 | the coverage condition for a run of archives and an optional top-up |
| `BackupCoverage.HoleExample` | pkg/src/cluster/dtc_backup.c:3048-3071 | a backup that reports success although an LSN is not covered |
| `OverlapTrim.SkipDuplicates` | pkg/src/cluster/dtc_backup.c:3150-3165 | stops at the first batch past the LSN, with its offset and SCN; fails exactly when there is none |
| `OverlapTrim.RemoveDuplicates` | pkg/src/cluster/dtc_backup.c:3147-3181 | whatever sizes the reads return, the bytes written are exactly the batches from there on; head.first and write_pos are exact |
| `OverlapTrim.ModifyArchfile` | pkg/src/cluster/dtc_backup.c:3207-3255 | for increasing LSNs the new file holds byte for byte the batches past the LSN, with the header fields and the ASN it is registered under |
| `OverlapTrim.TrimmedAgain` | pkg/src/cluster/dtc_backup.c:3147-3181 | trimming is idempotent and keeps the file well formed |
| `RestoreChain.FindFirst` | pkg/src/cluster/dtc_backup.c:3334-3391 | finds the first archive listed that reaches past the backup set without a gap, and none only when there is none |
| `RestoreChain.FindNext` | pkg/src/cluster/dtc_backup.c:3446-3493 | finds the first archive listed of this database that holds the LSN, and none only when there is none |
| `RestoreChain.RegistArchives` | pkg/src/cluster/dtc_backup.c:1989-2040 | for any directory and listing orders, the trimmed copy joining the directory: the loop ends; the picks are the first file listed for the next LSN in each round; their ranges are gapless from the backup set's end, without overlap when no two archives cross; ASNs are consecutive; every round before the last found its file and registered it; it stops for want of an archive only when none continues the chain and nothing failed |
| `RestoreChain.ChainCovers` | pkg/src/cluster/dtc_backup.c:1989-2040 | the chain covers every LSN between the backup set's end and its own end |
| `RestoreChain.ChainIsLongest` | pkg/src/cluster/dtc_backup.c:1989-2040 | where the loop ends for want of an archive, no LSN beyond could be reached without a gap |
| `RestoreChain.FirstPickIsTrimmed` | pkg/src/cluster/dtc_backup.c:3307-3332 | the trimmed first archive holds exactly the batches its range stands for |
| `RestoreChain.ReplaysOnce` | pkg/src/cluster/dtc_backup.c:1989-2040 | without overlap the restored archives replay every batch exactly once and in order |
| `RestoreChain.OverlapReplaysTwice` | pkg/src/cluster/dtc_backup.c:3446-3493 | where a pick overlaps the previous one, some batch is replayed twice |
| `RestoreChain.OverlapExample` | pkg/src/cluster/dtc_backup.c:3446-3493 | a directory of two archives, its listing order and the overlapping picks the loop makes of it |
| `RestoreChain.ReplayExact` | pkg/src/cluster/dtc_backup.c:1989-2040 | a gapless chain replays every log exactly once, in order, if and only if no two of its ranges overlap |
| `RestoreChain.RestoreExact` | pkg/src/cluster/dtc_backup.c:1989-2040 | for every backup set end and listing order the restored log is replayed exactly once, in order, if and only if no two archives of the directory cross, one ending inside the other |
| `RedoStat.DistanceExact` | pkg/src/cluster/dtc_ckpt.c:829-843 | for ordered points the mixed 32- and 64-bit unsigned arithmetic gives the true distance |
| `RedoStat.BytesBalance` | pkg/src/cluster/dtc_ckpt.c:829-843 | in bytes, backlog is previous backlog plus generated minus recycled |
| `RedoStat.FiguresMean` | pkg/src/cluster/dtc_ckpt.c:829-846 | the figures of a window: redo generated and recycled between the points in whole megabytes, and the backlog, from the kilobytes the storage service reports or else from the points |
| `RedoStat.MegabytesBalance` | pkg/src/cluster/dtc_ckpt.c:829-843 | in the recorded whole megabytes the balance holds to within one, for file-based redo |
| `RedoStat.RecordedBalance` | pkg/src/cluster/dtc_ckpt.c:848-895 | two windows recorded one after the other for file-based redo balance to within one megabyte |
| `RedoStat.RunBalance` | pkg/src/cluster/dtc_ckpt.c:848-895 | over any run of windows, what was generated is recycled or still backlog |
| `RedoStat.OldestFirst` | pkg/src/cluster/dtc_ckpt.c:871-885 | a full ring read from its start index gives the last 500 windows, oldest first |
| `RedoStat.RedoStatistics.Calculate` | pkg/src/cluster/dtc_ckpt.c:848-895 | after every call the ring holds exactly the last min(k, 500) of the k windows recorded; when the storage service gives no answer nothing is recorded and the counter stays so that the next call tries again |
| `SchemaMigration.IncrementItems` | pkg/install/sql_process.py:300-344 | gives the columns added at the end, and fails exactly when the old columns are not a prefix of the new ones |
| `SchemaMigration.UpgradeTable` | pkg/install/sql_process.py:774-837 | emits an ADD for each new column and a fill for each NOT NULL one; accepted exactly when the table only grows |
| `SchemaMigration.UpgradeItem` | pkg/install/sql_process.py:774-837 | the statements for any item, by its old counterpart |
| `SchemaMigration.TableGroup.Fetch` | pkg/install/sql_process.py:1240-1251 | returns and flags the first item that matches |
| `SchemaMigration.TableGroup.IsAllMatched` | pkg/install/sql_process.py:1253-1266 | holds exactly when every old statement other than an index is still matched |
| `SchemaMigration.AllMatchedMeans` | pkg/install/sql_process.py:1253-1266 | in terms of the two releases alone: everything is matched exactly when the table is the same and every reload is kept, none written twice |
| `SchemaMigration.TableGroup.IsDropIndex` | pkg/install/sql_process.py:1268-1304 | asks for a rebuild exactly when the two releases' index sets differ |
| `SchemaMigration.TableGroup.DropAllIndexes` | pkg/install/sql_process.py:1306-1317 | drops every index of the group |
| `SchemaMigration.RebuildRuns` | pkg/install/sql_process.py:1306-1317 | dropping all old indexes and creating all new ones never fails and turns one index set into the other |
| `SchemaMigration.CopiesRun` | pkg/install/sql_process.py:1475-1485 | the script of a new table builds exactly what the group describes |
| `SchemaMigration.TableGroup.Rebuild` | pkg/install/sql_process.py:1508-1534 | the script and recorded difference of the rebuilding path |
| `SchemaMigration.TableGroup.Keep` | pkg/install/sql_process.py:1535-1550 | the script and recorded difference of the keeping path |
| `SchemaMigration.TableGroup.UpgradeFrom` | pkg/install/sql_process.py:1486-1552 | an upgrade is produced exactly when nothing but indexes goes away and the table only grows; run on the old schema it succeeds and gives the new schema exactly when the group reloads its dictionary or the indexes are unchanged; after it the dictionary is stale exactly when the table was changed and not reloaded since; and every new NOT NULL column is filled with its default and the fill committed |
| `SchemaMigration.TableGroup.GenerateUpgrade` | pkg/install/sql_process.py:1460-1552 | the same for new and existing tables, for the script and for the recorded difference; the extra statements keep the schema and fill every new column that needs it; a new table is left with a fresh dictionary exactly when its last statement reloads it |
| `SchemaMigration.IndexNeverMade` | pkg/install/sql_process.py:1508-1534 | a group without LOAD DICTIONARY and one new index: the generator accepts it, and running its own script leaves the table without the index |
| `VersionScripts.UpgradeFiles` | pkg/install/sql_process.py:2673-2726 | lists the version steps, lowest first; fails exactly when a needed file is missing: both directions of every version from 2 that the lower release lacks, and the first step of an object it does not have |
| `VersionScripts.DegradeFiles` | pkg/install/sql_process.py:2513-2561 | the same for the degrade |
| `VersionScripts.StepsAre` | pkg/install/sql_process.py:2689-2702 | which steps there are: for each version from 2 exactly when low < version <= high, and the step to version 1 exactly when its file exists, each once and in ascending order |
| `VersionScripts.StepsCompose` | pkg/install/sql_process.py:2689-2702 | the steps from low to high are those from low to a version in between followed by those from there to high, if and only if no generated step exists |
| `VersionScripts.UpgradeReaches` | pkg/install/sql_process.py:2673-2756 | with steps that work only on the version they start from, the upgrade script takes an object from its version in the lower release to its version in the higher one, if and only if the step to version 1 is there exactly when the way begins with it |
| `VersionScripts.DegradeReaches` | pkg/install/sql_process.py:2538-2584 | the same for the degrade script, from the higher version to the lower one |
| `VersionScripts.ChecksDiffer` | pkg/install/sql_process.py:2513-2535 | the two file checks disagree exactly on the first step of an object the lower release does not have: the degrade check never looks for the upgrade file |
| `VersionScripts.MissingUpgradeAccepted` | pkg/install/sql_process.py:2513-2535 | an object whose upgrade file is missing and whose degrade is accepted all the same |
| `VersionScripts.StepsMirror` | pkg/install/sql_process.py:2689-2702 | the degrade takes the upgrade's steps turned round exactly when the first step exists in both directions or in neither |
| `VersionScripts.Upgrade` | pkg/install/sql_process.py:2729-2756 | the upgrade script of an object: every step in order, with the reloads between |
| `VersionScripts.UpgradeReloads` | pkg/install/sql_process.py:2729-2756 | a table's upgrade script reloads the dictionary after every file, and before the first one if the lower release has the table; other scripts never do |
| `VersionScripts.Degrade` | pkg/install/sql_process.py:2538-2584 | the degrade script of an object: the steps highest version first |
| `VersionScripts.DegradeReloads` | pkg/install/sql_process.py:2562-2584 | a table's degrade script reloads the dictionary before the first file, and after the last one exactly when the lower release keeps the table |
| `VersionScripts.DegradeUndoes` | pkg/install/sql_process.py:2555-2580 | if each degrade step undoes its upgrade step, the degrade script undoes the upgrade script, from every state |
| `VersionScripts.OneSidedFirstStep` | pkg/install/sql_process.py:2552-2556 | with the first step present only for the upgrade, the degrade stops right after that step's effect |
| `VersionScripts.OneSidedDegrade` | pkg/install/sql_process.py:2552-2556 | with the first step present only for the degrade, the degrade goes one step beyond where the upgrade started |
| `VersionScripts.DegradeExact` | pkg/install/sql_process.py:2552-2580 | the degrade script takes the upgrade script back, for all effects whose upgrade steps are undone and from every state, if and only if the first step exists in both directions or in neither |
| `VersionScripts.ReleaseDegradeUndoes` | pkg/install/sql_process.py:2605-2670 | degrading a whole release undoes upgrading it, for any number of objects listed in any two orders |

## Left out

- CkptPass.BuffersAfter: is for a world in which no other thread changes a buffer; what one attempt does to a buffer in any world is `CkptPass.DealMeans`.
- LamportClock.ScnNeverGoesBack: the other SCN writers modelled are those that hold the SCN lock; redo replay, which sets the SCN without it, and database creation and start-up are not modelled.
- RedoStat.RedoStatistics.Calculate: the speeds per second, the end time and the first page of the queue are not modelled.
- CkptPass.CkptContext.RemoteEdpPrepare: page contents, encryption and checksums are not modelled; that one of the latter failed is a parameter.
- BackupCoverage.BackupNode: the redo kept by the storage service; the file-based log backup, which only logs a failed count check, is not modelled, nor is the early end for a node whose log points need no archive.
- RestoreChain.RegistArchives: works on LSN ranges and ASNs; the file-name buffers and the archive record in the control file are not modelled.
- SchemaMigration.TableGroup.GenerateUpgrade: items are compared as values; tokenising, case folding, renaming, the rewrites for special and SYSAUX tables and the lists of new and changed unique indexes are not modelled.
- VersionScripts.Upgrade: file contents are a parameter; the white list and the rewriting of names for old releases are not modelled.
- Failed message sends, timeouts and changes of the master and owner maps during a request.
- Invalid page ids on their way through the message protocol.
- Memory allocation failures and device errors, other than as an error result.
- Triggering a checkpoint when a table is dropped, whose exit rests on code outside these files.
- Parsing and printing of archive file names.
- Page and lock protocol bodies, installers, deployment scripts, command-line tools and log handling.
