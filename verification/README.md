# A verified model of LevelDB and nanopb

The application in this repository is a thin shell; its substance is two vendored engines. This project models both in
Dafny and proves what they are for: that a log-structured merge tree behind logs, tables and a manifest shows every
reader the right value at every moment, crashes included, and that the protocol-buffer codec restores what it wrote.

`dafny verify dfyconfig.toml` checks the whole project.

## How the model is laid out

* **Keys, versions and views** (`InternalKeys`, `Views`, `Lsm`). A user key is represented by its rank in the
  comparator's order: the engine sees user keys only through the comparator, and every run touches finitely many. A
  view is the value of the newest entry not above a sequence number. A table file carries its entries; its smallest
  and largest keys are those of its first and last entry.
* **The merge tree** (`Picking`, `VersionBuilder`, `VersionEdits`, `Compactions`, `CompactionProof`,
  `CompactionInstall`, `LsmRuns`, `ManifestRuns`, `Resurrection`, `ReadPath`). Input choice, edits and their manifest
  records, the compaction loop, runs of all background steps and of the manifests they write, one run in which a
  deleted value returns, and point reads. Which level or file a compaction starts from, and the sizes of files, are
  free.
* **Iterators** (`MergingIterators`, `SnapshotIterators`). The merging iterator and the bidirectional snapshot
  iterator over it.
* **Durability** (`Durability`, `DurabilityProof`, `DurabilityRuns`, `DurabilityHistory`, `RecoveryRuns`,
  `DurabilityProgress`). A step machine over logs, tables, the manifest, both memtables, writers, the background
  thread with its unlocked stretches, file deletion, readers, crash and recovery, built on the runs of the merge tree.
* **Recovery from bytes** (`LogRecovery`, `Manifests`). Write-ahead logs and manifests from encoding to replay, cut
  short at any byte.
* **The write path** (`WriteBatches`, `GroupCommit`, `GroupProgress`) and **the memtable's index** (`SkipLists`), with
  a reader between any two stores of the writer.
* **Formats** (`Crc32c`, `LogFormat`, `LogWriter`, `LogPieces`, `LogReader`, `LogDamage`, `Coding`, `BlockFormat`,
  `BlockExample`, `Blocks`, `Comparators`, `Bloom`, `FilterBlocks`, `TableFormat`, `Tables`, `TableSizes`,
  `TableBuilders`). Checksummed log files work on bit-vector bytes, as the checksum does; all other formats work on
  bytes as numbers below 256.
* **The block cache** (`HandleTables`, `LruCaches`).
* **nanopb** (`ProtoMessages`, `ProtoEncoder`, `ProtoDecoding`, `ProtoRoundTrip`, `ProtoDecoder`, `ProtoLaws`).
  Messages as trees over field descriptors; streams with the sizing pass; the decoder and the round trip; what is
  refused, read over and merged.

Operations that the source runs in place are classes or methods with loops; each is proved against a function or a
predicate, and the theorems are about those.

## What does not hold as one might expect

* **A compaction can bring a deleted value back.** `SetupOtherInputs` closes the inputs of the lower level under files
  that share a boundary user key, but not those of the upper one, and the deletion rule looks only two levels further
  down. `CompactionPreservesViews` states exactly when the view of a key survives, `CompactionCanResurrect` gives a
  run in which one does not, and `BoundaryClosedIsSafe` and `ClosedIsSafe` give a condition on the chosen files that
  rules it out. Over whole runs, `SnapshotStable`, `AcknowledgedWritesSurvive` and `RecoveredReads` say exactly when a
  snapshot, the disk and a recovered engine show a key right; no value is ever lost or replaced in this way, it is
  only deleted keys that can have a value again.
* **Decoding a version edit twice into the same object** keeps its old compaction pointers (`EditRoundTrip`).
* **Replaying a manifest** differs from the live version exactly if a file's number is dropped from a level after the
  file was last added to it, and the number is given to another file of that level later (`ReplayExact`,
  `ReplayNeedsIdentity`). Only the first file added with a given smallest key and number matters here, because the
  builder's ordered set keeps the first of two files that compare equal. No run does this (`RunReplays`).
* **The length of a log fragment is not covered by its checksum.** A damaged length near the end of the file is taken
  for an unfinished write, without a report; so is a fragment whose type is 5, which stands for the end of the file. A
  type of 6, which stands for a bad record, and a header of zeros are passed over without a report. Everything else is
  reported (`ReadAll`), and so is every single damaged byte of a checksum, type or payload (`WriteDamageRead`) but the
  one that makes such a header of zeros.
* **The overflow check of nanopb's 32-bit varints** is meant to pass numbers below 32 bits and negative ones, which
  are written in 64 bits. It passes exactly those that `ReadsExactly` lists, which are more (`SomeOverflowsPass`).
* **A nanopb string that fills its array** is encoded but refused by the decoder (`StringNeedsRoom`).
* In `db_iter.cc` the comment on the reverse direction says that the inner iterator stands just before all entries of
  the current key; it can in fact stand further back, past entries too new to be visible. The model follows the code.

## Model

| member | source | states |
|---|---|---|
| `Lsm.VersionUnique` | ios/Pods/leveldb-library/db/version_set.cc:470-495 | the order of levels and files makes (user key, sequence number) unique over a whole version |
| `InternalKeys.KeyParts` | ios/Pods/leveldb-library/db/dbformat.cc:15-24 | the tag of an internal key has the sequence number in its upper 56 bits and the type in its lower eight |
| `InternalKeys.SeekKeySplits` | ios/Pods/leveldb-library/db/dbformat.h:54-67 | of the entries of a user key, those at or behind the seek key are the ones not above its sequence number |
| `Picking.FindFile` | ios/Pods/leveldb-library/db/version_set.cc:87-105 | the binary search gives the first file whose largest key is not below the key |
| `Picking.SomeFileOverlapsRange` | ios/Pods/leveldb-library/db/version_set.cc:121-152 | the answer is whether any file meets the user-key range, for level 0 and for sorted levels, with open ends |
| `Picking.GetOverlappingInputs` | ios/Pods/leveldb-library/db/version_set.cc:498-538 | the restarting search of level 0 ends, and gives exactly the files overlapping the least range that contains the request and is closed under overlap; above level 0, those overlapping the request; a range without gaps stays without gaps |
| `Picking.GetRange` | ios/Pods/leveldb-library/db/version_set.cc:1182-1204 | the least smallest and the greatest largest key of a set of files, both attained |
| `Picking.FindSmallestBoundaryFile` | ios/Pods/leveldb-library/db/version_set.cc:1320-1342 | the least file that starts after the key with the key's user key, if there is one |
| `Picking.AddBoundaryInputs` | ios/Pods/leveldb-library/db/version_set.cc:1355-1378 | the search ends with no later file of the level sharing the largest user key; the files stay a run of neighbours and stay connected |
| `Picking.CloseInputs` | ios/Pods/leveldb-library/db/version_set.cc:1380-1388 | every file of the level left out holds, for a chosen user key, only newer entries than the chosen files |
| `Picking.TryExpand` | ios/Pods/leveldb-library/db/version_set.cc:1398-1424 | growing the inputs of the lower level keeps their closure and their overlap with level+1, and keeps them connected; above level 0, where no boundary files come in, it grows to all files in the range exactly if these are more, fit the byte limit and overlap no more files of level+1, and not at all otherwise |
| `Picking.ExpansionConnected` | ios/Pods/leveldb-library/db/version_set.cc:1398-1424 | inputs grown over a connected set of files are connected again |
| `Picking.Grandparents` | ios/Pods/leveldb-library/db/version_set.cc:1427-1433 | the grandparents are exactly the files two levels down that overlap the range, none below the last level |
| `Picking.SetupOtherInputs` | ios/Pods/leveldb-library/db/version_set.cc:1380-1439 | the inputs are closed downwards in their level and take every overlapping file of level+1; connected if the chosen files were; above level 0, where no boundary files come in, they are the chosen files or all files in the range by the same rule; the grandparents are all files two levels down that overlap them |
| `Picking.PickCompaction` | ios/Pods/leveldb-library/db/version_set.cc:1247-1301 | the inputs around any chosen file satisfy what installing needs, have no gap between them, and have all their grandparents |
| `Picking.CompactRange` | ios/Pods/leveldb-library/db/version_set.cc:1441-1484 | nothing to do exactly if no file overlaps the range; otherwise inputs that satisfy what installing needs; above level 0 they start from the shortest run of the overlapping files that reaches the size limit |
| `Picking.OverlapPrefix` | ios/Pods/leveldb-library/db/version_set.cc:1456-1468 | cutting an ordered run of overlapping files short leaves a run of neighbours |
| `Picking.PickLevelForMemTableOutput` | ios/Pods/leveldb-library/db/version_set.cc:470-495 | the level is one where the table overlaps nothing in any level it passes and not too many grandparent bytes below; it stays higher only for an overlap or for too many such bytes |
| `VersionBuilder.Builder.Apply` | ios/Pods/leveldb-library/db/version_set.cc:629-669 | per level: deletions collected, and added files inserted in order, an added file leaving the deleted set |
| `VersionBuilder.SaveLevel` | ios/Pods/leveldb-library/db/version_set.cc:672-715 | the merge of base and added files is strictly ordered and holds exactly the files not deleted |
| `VersionBuilder.LiveMembers` | ios/Pods/leveldb-library/db/version_set.cc:629-715 | the files of a live level are exactly those some edit added and no later edit dropped |
| `VersionBuilder.CollectedDeleted` | ios/Pods/leveldb-library/db/version_set.cc:629-669 | one builder over all edits ends with exactly those numbers deleted whose last touching edit drops them |
| `VersionBuilder.CollectedAdded` | ios/Pods/leveldb-library/db/version_set.cc:629-669 | one builder over all edits ends with exactly the first file added of each smallest key and number |
| `VersionBuilder.ReplayExact` | ios/Pods/leveldb-library/db/version_set.cc:862-976 | for every list of edits: collecting them all gives the live level if and only if every file whose number is dropped after the file was last added has its number dropped for good |
| `VersionBuilder.Recover` | ios/Pods/leveldb-library/db/version_set.cc:862-976 | replaying every manifest edit through one builder gives the live level exactly under that condition |
| `VersionBuilder.NeverReaddedReplays` | ios/Pods/leveldb-library/db/version_set.cc:629-669 | a level to which no dropped number is added again can be replayed |
| `VersionBuilder.IdentityReplays` | ios/Pods/leveldb-library/db/version_set.cc:629-669 | a level in whose edits a number stands for one file can be replayed |
| `VersionBuilder.ReplayNeedsIdentity` | ios/Pods/leveldb-library/db/version_set.cc:629-669 | an edit list that fails it: giving a dropped number to another file brings the first file back |
| `VersionEdits.FieldRoundTrip` | ios/Pods/leveldb-library/db/version_edit.cc:41-203 | each tagged field is read back, whatever follows it |
| `VersionEdits.FieldTag` | ios/Pods/leveldb-library/db/version_edit.cc:13-24 | each field starts with the number of its kind |
| `VersionEdits.EditRoundTrip` | ios/Pods/leveldb-library/db/version_edit.cc:26-203 | decoding an encoded edit is the identity exactly into an edit without compaction pointers; otherwise old pointers stay in front, since Clear keeps them |
| `VersionEdits.VersionEdit.EncodeTo` | ios/Pods/leveldb-library/db/version_edit.cc:41-84 | the record is the concatenation of the fields, deleted files in the order of their set |
| `VersionEdits.VersionEdit.DecodeFrom` | ios/Pods/leveldb-library/db/version_edit.cc:105-203 | a record is accepted exactly if it is a sequence of whole, known fields; the edit then holds them in order |
| `VersionEdits.VersionEdit.Clear` | ios/Pods/leveldb-library/db/version_edit.cc:26-39 | everything but the compaction pointers is reset |
| `Compactions.Compaction.IsBaseLevelForKey` | ios/Pods/leveldb-library/db/version_set.cc:1510-1529 | for increasing keys the moving cursors answer like a scan of all deeper levels |
| `Compactions.Compaction.ShouldStopBefore` | ios/Pods/leveldb-library/db/version_set.cc:1531-1553 | the grandparent cursor passes exactly the files that end before the key, and the answer compares their bytes with the limit |
| `Compactions.Compaction.StopBefore` | ios/Pods/leveldb-library/db/db_impl.cc:930-937 | over the whole input the cursor answers, entry by entry, whether the grandparents passed since the last stop exceed the limit |
| `Compactions.Compaction.DoCompactionWork` | ios/Pods/leveldb-library/db/db_impl.cc:887-1009 | the output files, one after the other, hold exactly the input entries that are neither covered nor obsolete deletions; no proper part of an output from its start has reached the size limit, every output but the last has reached it or ends before a stop, none goes on past a stop, and each records its own size; a stop is told from the grandparents and the keys: the bytes of those passed since the last stop exceed the limit |
| `Compactions.KeptMembers` | ios/Pods/leveldb-library/db/db_impl.cc:954-980 | what is kept of the input is exactly what is not dropped, in order |
| `Compactions.KeptIsMinimal` | ios/Pods/leveldb-library/db/db_impl.cc:954-980 | of a user key no two kept entries are visible at the oldest snapshot, and a kept deletion visible there has a file two levels down or deeper that it may cover |
| `CompactionProof.CompactionKeepsInv` | ios/Pods/leveldb-library/db/db_impl.cc:869-885 | installing the outputs keeps the order of levels, files and file numbers |
| `CompactionProof.CompactionPreservesViews` | ios/Pods/leveldb-library/db/db_impl.cc:887-1009 | for each key and each sequence number at or above the oldest snapshot, the view is unchanged if and only if no value of the key that a dropped deletion covered there sits in a left-out file of level+1; otherwise a value is seen where there was none |
| `CompactionProof.ResurfacingChangesView` | ios/Pods/leveldb-library/db/version_set.cc:1384-1388 | if such a value exists, the reader sees it in place of nothing |
| `CompactionInstall.InstalledIsReplaced` | ios/Pods/leveldb-library/db/db_impl.cc:869-885 | logging the edit of a compaction replaces exactly its inputs by its outputs |
| `CompactionInstall.ReplacedIsInstalled` | ios/Pods/leveldb-library/db/db_impl.cc:869-885 | and replacing them is logging that edit |
| `CompactionInstall.BoundaryClosedIsSafe` | ios/Pods/leveldb-library/db/version_set.cc:1384-1388 | if no left-out file of level+1 starts with the user key an input of level+1 ends with, nothing can come back |
| `Resurrection.CompactionCanResurrect` | ios/Pods/leveldb-library/db/version_set.cc:1384-1388 | a whole run from the empty database at whose end a compaction brings a deleted value back for a reader of the newest state |
| `Resurrection.OnlyChoice` | ios/Pods/leveldb-library/db/version_set.cc:1380-1439 | in that run the code can choose no other files for the compaction |
| `LsmRuns.FlushKeepsPicked` | ios/Pods/leveldb-library/db/db_impl.cc:918-926 | a memtable flushed in the middle of a compaction leaves the compaction's inputs properly chosen in the new version |
| `LsmRuns.FlushOutside` | ios/Pods/leveldb-library/db/version_set.cc:470-495 | a flush placed below the inputs' level overlaps neither the connected inputs nor anything between them |
| `LsmRuns.FlushKeepsJob` | ios/Pods/leveldb-library/db/db_impl.cc:918-926 | what the compaction knew of deeper levels stays right for its keys after such a flush |
| `LsmRuns.MoveKeepsVersion` | ios/Pods/leveldb-library/db/db_impl.cc:727-734 | a trivial move keeps the invariant and every entry |
| `LsmRuns.StepKeepsInv` | ios/Pods/leveldb-library/db/db_impl.cc:697-776 | every write, memtable switch, flush, compaction start, output, end, move, manual compaction and snapshot step keeps the invariant |
| `LsmRuns.RunKeepsInv` | ios/Pods/leveldb-library/db/db_impl.cc:697-776 | the invariant holds in every state of every run |
| `ManifestRuns.RunReplays` | ios/Pods/leveldb-library/db/version_set.cc:777-860 | in every run no file number is added again to a level it was dropped from, so that a snapshot record and the record of every step replay to the live version |
| `LsmRuns.StepKeepsViews` | ios/Pods/leveldb-library/db/db_impl.cc:887-1009 | a step changes what a held snapshot or the newest state shows of a key if and only if it installs a compaction that brings a covered value of that key back for that reader |
| `LsmRuns.ClosedIsSafe` | ios/Pods/leveldb-library/db/version_set.cc:1384-1388 | no compaction brings anything back if no left-out file of level+1 starts with the user key an input of level+1 ends with |
| `LsmRuns.SnapshotStable` | ios/Pods/leveldb-library/db/db_impl.cc:1176-1185 | over any stretch of any run, a held snapshot shows a key alike at both ends if and only if no compaction between brought a covered value of the key back for it; a value it shows never changes |
| `ReadPath.SeekAndCheck` | ios/Pods/leveldb-library/db/memtable.cc:101-135 | seeking and comparing user keys finds the newest visible entry of a sorted run |
| `ReadPath.GetLevel0` | ios/Pods/leveldb-library/db/version_set.cc:281-303 | searching overlapping level-0 files newest first stops at the newest visible entry |
| `ReadPath.GetSortedLevel` | ios/Pods/leveldb-library/db/version_set.cc:305-321 | one file per sorted level decides the level |
| `ReadPath.VersionGet` | ios/Pods/leveldb-library/db/version_set.cc:324-400 | the early-stopping search over the levels finds the newest visible entry of the version |
| `ReadPath.Get` | ios/Pods/leveldb-library/db/db_impl.cc:1110-1155 | memtable, immutable memtable and version in this order give the view of all entries at the sequence number |
| `MergingIterators.MergingIterator.SeekToFirst` | ios/Pods/leveldb-library/table/merger.cc:31-37 | the merged position is the first entry |
| `MergingIterators.MergingIterator.SeekToLast` | ios/Pods/leveldb-library/table/merger.cc:39-45 | the merged position is the last entry |
| `MergingIterators.MergingIterator.Seek` | ios/Pods/leveldb-library/table/merger.cc:47-53 | the first merged entry not below the target |
| `MergingIterators.MergingIterator.Next` | ios/Pods/leveldb-library/table/merger.cc:55-79 | one merged position forward, also after moving backward |
| `MergingIterators.MergingIterator.Prev` | ios/Pods/leveldb-library/table/merger.cc:81-108 | one merged position back, also after moving forward; off the front it becomes invalid |
| `MergingIterators.MergingIterator.FindSmallest` | ios/Pods/leveldb-library/table/merger.cc:148-161 | the current child is the one whose entry has the next rank |
| `MergingIterators.MergingIterator.FindLargest` | ios/Pods/leveldb-library/table/merger.cc:163-176 | the current child is the one whose entry has the previous rank |
| `SnapshotIterators.LiveIsView` | ios/Pods/leveldb-library/db/db_iter.cc:177-207 | the entries an iterator may stop at are in order, one per user key, and are the view at the sequence number |
| `SnapshotIterators.DBIter.FindNextUserEntry` | ios/Pods/leveldb-library/db/db_iter.cc:177-207 | stops at the least wanted entry from the inner position on |
| `SnapshotIterators.DBIter.Next` | ios/Pods/leveldb-library/db/db_iter.cc:141-175 | the least live entry after the current one, in either direction of travel |
| `SnapshotIterators.DBIter.FindPrevUserEntry` | ios/Pods/leveldb-library/db/db_iter.cc:236-276 | the greatest live entry at or before the inner position |
| `SnapshotIterators.DBIter.Prev` | ios/Pods/leveldb-library/db/db_iter.cc:209-234 | the greatest live entry before the current one, in either direction of travel |
| `SnapshotIterators.DBIter.Seek` | ios/Pods/leveldb-library/db/db_iter.cc:278-290 | the least live entry whose user key is not below the target |
| `SnapshotIterators.DBIter.SeekToFirst` | ios/Pods/leveldb-library/db/db_iter.cc:292-301 | the least live entry |
| `SnapshotIterators.DBIter.SeekToLast` | ios/Pods/leveldb-library/db/db_iter.cc:303-308 | the greatest live entry |
| `Crc32c.UnmaskMask` | ios/Pods/leveldb-library/util/crc32c.h:24-38 | unmasking a masked checksum gives it back |
| `Crc32c.ExtendConcat` | ios/Pods/leveldb-library/util/crc32c.h:14-20 | extending by one string and then by another is extending by both |
| `Crc32c.TableBasis` | ios/Pods/leveldb-library/util/crc32c.cc:20-63 | the definition of the byte table gives the table's entries at the powers of two, and the table is linear, which fixes all of it |
| `Crc32c.Step1IsAdvance` | ios/Pods/leveldb-library/util/crc32c.cc:286-291 | the table step is eight bit steps of the polynomial |
| `Crc32c.FoldWord` | ios/Pods/leveldb-library/util/crc32c.cc:313-322 | four byte steps are one word step |
| `Crc32c.Step4IsAdvance` | ios/Pods/leveldb-library/util/crc32c.cc:293-301 | the four stride tables together advance a word by sixteen bytes |
| `Crc32c.ChainStep` | ios/Pods/leveldb-library/util/crc32c.cc:303-356 | feeding a word to the oldest of four strides and rotating them feeds it to the register |
| `Crc32c.ExtendWords` | ios/Pods/leveldb-library/util/crc32c.cc:320-365 | the word loops keep the byte-at-a-time register |
| `Crc32c.Extend` | ios/Pods/leveldb-library/util/crc32c.cc:276-377 | for every buffer, length and alignment the strided computation is the byte-at-a-time one, which is the complement of the polynomial's register, fed bit by bit from the complement of the start value |
| `Crc32c.ValueIsComplement` | ios/Pods/leveldb-library/util/crc32c.cc:246-377 | the checksum is the complement of the bit-by-bit polynomial register that starts with all ones |
| `Crc32c.CheckValues` | ios/Pods/leveldb-library/util/crc32c.cc:276-377 | the checksums of no byte, one zero byte and 32 zero bytes, the last as in RFC 3720 |
| `Crc32c.OneByteDetected` | ios/Pods/leveldb-library/util/crc32c.cc:276-377 | changing one byte anywhere changes the checksum |
| `Crc32c.MaskValues` | ios/Pods/leveldb-library/util/crc32c.h:24-31 | masked checksums at literal values |
| `LogFormat.LengthRoundTrip` | ios/Pods/leveldb-library/db/log_writer.cc:87-91 | a length written as two bytes is read back |
| `LogFormat.RecordBytes` | ios/Pods/leveldb-library/db/log_writer.cc:34-80 | the fragments of a record stay inside their blocks and end where the record ends |
| `LogFormat.BlocksOf32K` | ios/Pods/leveldb-library/db/log_writer.cc:34-66 | a fragment starts at once or, if less than a header is left, at the next multiple of 32768, and what it can hold ends at such a multiple |
| `LogFormat.PaddingIsZero` | ios/Pods/leveldb-library/db/log_writer.cc:46-54 | what is left of a block is filled with zeros |
| `LogFormat.EmptyRecordBytes` | ios/Pods/leveldb-library/db/log_writer.cc:82-108 | the seven bytes of the empty record at the start of a log |
| `LogWriter.Writer.constructor` | ios/Pods/leveldb-library/db/log_writer.cc:23-30 | a writer for a reused log starts at the offset inside the last block |
| `LogWriter.Writer.AddRecord` | ios/Pods/leveldb-library/db/log_writer.cc:34-80 | the record is appended as its padding and fragments, whatever was in the file before |
| `LogWriter.Writer.EmitPhysicalRecord` | ios/Pods/leveldb-library/db/log_writer.cc:82-108 | one physical record is the masked checksum of type and payload, the length, the type and the payload |
| `LogReader.Reader.ReadPhysicalRecord` | ios/Pods/leveldb-library/db/log_reader.cc:189-271 | inside any prefix of a well-formed log: the next fragment if the prefix holds all of it, otherwise end of file, and no report; of any file at all: a fragment that is given out stands in one block with its length, type and right checksum; what is passed over without a report is the end of a block, a header of zeros with the rest of its block, which never is reported, or a record of the type that stands for a bad one; a report has the size of what was passed over |
| `LogReader.Reader.ReadRecord` | ios/Pods/leveldb-library/db/log_reader.cc:56-174 | inside any prefix of a log: the next record, with its offset, if the prefix holds all of it, otherwise nothing, and no report; of any file at all: a record is put together from intact fragments, a full one or a first one, middle ones and a last one; if nothing was reported then nothing that mattered was passed over before or between them, or up to the end; records and reports together are no more bytes than were read |
| `LogReader.ReadAll` | ios/Pods/leveldb-library/db/db_impl.cc:421-456 | reading to the end of any prefix gives exactly the records that end in it, in order, without a report; of any file at all: every record is put together from intact fragments, later ones from later fragments; if nothing was reported, the file is those records, what may be passed over, and at most the beginning of one more; records and reports together are no more bytes than the file |
| `LogReader.Reader.TakeFragment` | ios/Pods/leveldb-library/db/log_reader.cc:86-172 | what becomes of the record being put together when a fragment, a bad record or the end comes, and what is reported then |
| `LogReader.WriteCutRead` | ios/Pods/leveldb-library/db/log_reader.cc:56-271 | any records, written and cut at any byte: exactly the whole records come back, and nothing is reported |
| `LogPieces.ChangedIsNotIntact` | ios/Pods/leveldb-library/db/log_reader.cc:243-257 | a fragment of which one byte of the type or payload was changed is no longer intact, so it is never given out |
| `LogDamage.DamagedIsNotIntact` | ios/Pods/leveldb-library/db/log_reader.cc:243-257 | nor is one of which one byte of the checksum was changed |
| `LogDamage.WriteDamageRead` | ios/Pods/leveldb-library/db/log_reader.cc:56-271 | write any records, change one byte of the checksum, the type or the payload of any fragment, and read: something is reported, unless an empty fragment got the type zero |
| `LogDamage.LengthDamageIsSilent` | ios/Pods/leveldb-library/db/log_reader.cc:215-233 | with its length changed from 0 to 1, the only record of a log is not read and nothing is reported |
| `Manifests.Recover` | ios/Pods/leveldb-library/db/version_set.cc:862-986 | a manifest cut at any byte: the last counters of its whole records, and the version live after them exactly if its levels can be replayed; refused exactly for a foreign comparator or a missing counter |
| `Manifests.LastCounters` | ios/Pods/leveldb-library/db/version_set.cc:907-944 | of each counter the value in the last record that has one counts |
| `Manifests.LogCutRecover` | ios/Pods/leveldb-library/db/version_set.cc:862-986 | the same from end to end: edits encoded, logged, cut at any byte, read, decoded and replayed |
| `LogRecovery.RecoverLogFile` | ios/Pods/leveldb-library/db/db_impl.cc:421-462 | a log cut at any byte: exactly the entries of its whole batches, in order, under their own sequence numbers, and the greatest of these |
| `LogRecovery.LogCutReplay` | ios/Pods/leveldb-library/db/db_impl.cc:421-462 | the same from end to end: batches encoded, logged, cut at any byte, read and inserted |
| `LogRecovery.RecoveredPrefix` | ios/Pods/leveldb-library/db/db_impl.cc:421-462 | for batches numbered as writers number them, that is a prefix of what was logged, numbered without gaps, and the counter goes on after it |
| `DurabilityProof.DurableIsContents` | ios/Pods/leveldb-library/db/db_impl.cc:289-378 | in every running state the manifest's tables and the logs from its log number on hold exactly what memory shows and the write in flight |
| `DurabilityProof.RunningIsSafe` | ios/Pods/leveldb-library/db/db_impl.cc:289-378 | in every running state a crash would be recoverable |
| `DurabilityProof.CommitFlushKeeps` | ios/Pods/leveldb-library/db/db_impl.cc:544-575 | a flush commits its table and the log number in one manifest record without losing an entry |
| `DurabilityProof.CommitCompactionKeeps` | ios/Pods/leveldb-library/db/db_impl.cc:869-885 | a compaction, whatever it drops, commits outputs that are on disk and keeps tables, logs, counters and referenced files in order |
| `DurabilityProof.SwitchKeeps` | ios/Pods/leveldb-library/db/db_impl.cc:1356-1376 | a memtable switch starts a log whose number no log has, and keeps the order of the logs |
| `DurabilityRuns.ListObsoleteKeeps` | ios/Pods/leveldb-library/db/db_impl.cc:222-270 | the files listed for deletion are none that a referenced version, a pending output or recovery needs |
| `DurabilityRuns.DeleteTableKeeps` | ios/Pods/leveldb-library/db/db_impl.cc:272-286 | deleting a listed table later, with the mutex released, removes nothing that is needed by then |
| `DurabilityRuns.RecoveredInv` | ios/Pods/leveldb-library/db/db_impl.cc:380-498 | the tables that recovery builds from the logs, added to level 0, keep the order of levels and files |
| `DurabilityRuns.ReopenKeeps` | ios/Pods/leveldb-library/db/db_impl.cc:1478-1519 | recovery yields a running engine that shows everything the disk held |
| `DurabilityRuns.EveryStepKeeps` | ios/Pods/leveldb-library/db/db_impl.cc:222-575 | every step of writers, flushes, compactions, deletion, readers, crash and recovery keeps the invariant, in every run |
| `DurabilityRuns.NoReferencedTableDeleted` | ios/Pods/leveldb-library/db/db_impl.cc:222-287 | in every run, no table of a referenced version and no pending output is ever deleted; the tables of every referenced version and of the manifest are on disk |
| `RecoveryRuns.RecoveryCanFinish` | ios/Pods/leveldb-library/db/db_impl.cc:289-378 | from every state of every run in which the engine is down, steps of recovery lead to a running engine |
| `RecoveryRuns.GarbageGoes` | ios/Pods/leveldb-library/db/db_impl.cc:222-287 | from every state with an idle background thread, listing and deleting lead to one where exactly the tables of referenced versions and pending outputs, and the logs that recovery needs, are left |
| `DurabilityProgress.TreeStepIsPossible` | ios/Pods/leveldb-library/db/db_impl.cc:500-575 | every step of the merge tree but a manual compaction is, from every engine at rest, a stretch of durable steps that ends at rest with the same database |
| `DurabilityProgress.EveryRunIsPossible` | ios/Pods/leveldb-library/db/db_impl.cc:289-378 | every run of the merge tree without manual compactions, whose file numbers start at 4 or later, is what the durable engine can do from the creation of the database on |
| `RecoveryRuns.ManifestReplays` | ios/Pods/leveldb-library/db/version_set.cc:862-986 | in every run with crashes, the records appended to the manifest since any running state replay, on top of a snapshot, to the version the next recovery starts from |
| `DurabilityHistory.StepKeepsDurable` | ios/Pods/leveldb-library/db/db_impl.cc:222-575 | no step but logging a write and committing a compaction changes what recovery would bring back |
| `DurabilityHistory.DiskIsMemory` | ios/Pods/leveldb-library/db/db_impl.cc:289-378 | at every moment of every run, the manifest's tables and the logs hold exactly what memory holds and the write in flight |
| `DurabilityHistory.RecoveryRestoresMemory` | ios/Pods/leveldb-library/db/db_impl.cc:289-378 | in every run, however often recovery is interrupted, the engine that comes up has the contents of the one that crashed and its write in flight, and goes on from its sequence number |
| `DurabilityHistory.StepAgrees` | ios/Pods/leveldb-library/db/db_impl.cc:289-378 | a step leaves a key shown as the history of logged writes shows it exactly if it writes the key, or the key was shown so and no covered value of it comes back |
| `DurabilityHistory.AcknowledgedWritesSurvive` | ios/Pods/leveldb-library/db/db_impl.cc:289-378 | at every moment of every run with crashes: the history has every acknowledged write, a value it shows is never lost, and tables and logs show a key as it does if and only if every compaction that brought a covered value of the key back was followed by a write of the key |
| `DurabilityHistory.RecoveredReads` | ios/Pods/leveldb-library/db/db_impl.cc:1478-1519 | the first read after a recovery at the newest sequence number sees that history under exactly the same condition, and every value in it |
| `WriteBatches.OpsRoundTrip` | ios/Pods/leveldb-library/db/write_batch.cc:42-80 | the operations of a batch are read back from its bytes |
| `WriteBatches.RepParts` | ios/Pods/leveldb-library/db/write_batch.cc:82-96 | count, sequence number and body are read back from the representation |
| `WriteBatches.CountIsSigned` | ios/Pods/leveldb-library/db/write_batch.cc:82-88 | the count is a signed 32-bit number |
| `WriteBatches.BatchBytes` | ios/Pods/leveldb-library/db/write_batch.cc:5-14 | the bytes of a batch with a put and a deletion |
| `WriteBatches.WriteBatch.Iterate` | ios/Pods/leveldb-library/db/write_batch.cc:42-80 | every operation up to a malformed one is handled; success exactly if the body is whole and the count right; a well-formed batch yields its operations |
| `WriteBatches.WriteBatch.PutOp` | ios/Pods/leveldb-library/db/write_batch.cc:98-103 | a put is appended to the operations |
| `WriteBatches.WriteBatch.DeleteOp` | ios/Pods/leveldb-library/db/write_batch.cc:105-109 | a deletion is appended to the operations |
| `WriteBatches.WriteBatch.Append` | ios/Pods/leveldb-library/db/write_batch.cc:144-148 | the operations of another batch follow |
| `WriteBatches.WriteBatch.SetSequence` | ios/Pods/leveldb-library/db/write_batch.cc:94-96 | only the sequence number changes |
| `WriteBatches.WriteBatch.InsertInto` | ios/Pods/leveldb-library/db/write_batch.cc:115-137 | the operations enter the memtable on consecutive sequence numbers from the batch's own |
| `GroupCommit.BuildBatchGroup` | ios/Pods/leveldb-library/db/db_impl.cc:1270-1316 | a writer is in the group exactly if no writer up to it asks for a sync the first does not and, where it has a batch, the batches up to it total at most the first and 131072 bytes, or 1048576 bytes if the first is larger than 131072; the bytes are those writers' operations in queue order |
| `GroupCommit.GroupReaches` | ios/Pods/leveldb-library/db/db_impl.cc:1276-1314 | the group holds the first k writers exactly if all of these fit |
| `GroupCommit.SmallQueueServedWhole` | ios/Pods/leveldb-library/db/db_impl.cc:1276-1314 | a queue of at most 128 KB in all without a new sync is served in one group |
| `GroupCommit.GroupIsWithin` | ios/Pods/leveldb-library/db/db_impl.cc:1276-1314 | a group of more than one batch never exceeds the limit |
| `GroupCommit.RunInv` | ios/Pods/leveldb-library/db/db_impl.cc:1195-1266 | the invariant of the queue holds in every state of every interleaving |
| `GroupCommit.ServedInOrder` | ios/Pods/leveldb-library/db/db_impl.cc:1195-1266 | every writer is served once, in order of arrival; ranges are disjoint and consecutive; the memtable holds exactly the successful batches in that order |
| `GroupCommit.SyncedWhenAsked` | ios/Pods/leveldb-library/db/db_impl.cc:1216-1231 | a successful writer that asked for a sync has its batch in a log record that was synced |
| `GroupCommit.NeverInsideAGroup` | ios/Pods/leveldb-library/db/db_impl.cc:1204-1245 | the published sequence number is never inside the range of a group |
| `GroupProgress.QueueCanDrain` | ios/Pods/leveldb-library/db/db_impl.cc:1195-1266 | from every state of every run everybody who waits can be served, in order of arrival: all with success if the log is not broken, but for a group whose log record already failed |
| `SkipLists.RaiseKeeps` | ios/Pods/leveldb-library/db/skiplist.h:347-358 | storing a greater height keeps every level a sorted list of exactly its nodes |
| `SkipLists.PrepareKeeps` | ios/Pods/leveldb-library/db/skiplist.h:361-365 | storing the link of a node nothing reaches on that level changes nothing |
| `SkipLists.PublishKeeps` | ios/Pods/leveldb-library/db/skiplist.h:361-367 | the one store that links a node on a level keeps every level sorted and complete |
| `SkipLists.SkipList.FindGreaterOrEqual` | ios/Pods/leveldb-library/db/skiplist.h:260-281 | the first node not below the key, and the last node below it on every level |
| `SkipLists.SkipList.FindLessThan` | ios/Pods/leveldb-library/db/skiplist.h:283-302 | the last node below the key, or the head |
| `SkipLists.SkipList.FindLast` | ios/Pods/leveldb-library/db/skiplist.h:304-323 | the last node, or the head of an empty list |
| `SkipLists.SkipList.Contains` | ios/Pods/leveldb-library/db/skiplist.h:370-378 | whether a node with the key is in the list |
| `SkipLists.SkipList.Insert` | ios/Pods/leveldb-library/db/skiplist.h:336-368 | the key is afterwards on as many levels as its height and nothing else changed, through exactly such single stores as readers may see between |
| `SkipLists.AlwaysOnTrack` | ios/Pods/leveldb-library/db/skiplist.h:260-323 | a reader that loads links while the writer stores stands, at every moment, on a node of its level that its search has to pass |
| `SkipLists.SearchIsAtomic` | ios/Pods/leveldb-library/db/skiplist.h:260-323 | whatever is stored meanwhile, each of the three searches ends with its answer in the list at its last load, and misses no node that was there when it began |
| `Coding.FixedRoundTrip` | ios/Pods/leveldb-library/util/coding.h:58-105 | a fixed-width number is read back modulo its width |
| `Coding.FixedDigits` | ios/Pods/leveldb-library/util/coding.h:58-78 | byte i of a fixed-width number is its digit i to the base 256 |
| `Coding.VarintRoundTrip` | ios/Pods/leveldb-library/util/coding.cc:55-64 | a varint is read back, whatever follows it |
| `Coding.VarintDigits` | ios/Pods/leveldb-library/util/coding.cc:55-64 | byte i of a varint has digit i to the base 128, and its top bit exactly if it is not the last |
| `Coding.EncodeVarint32` | ios/Pods/leveldb-library/util/coding.cc:21-47 | the unrolled encoder gives the varint |
| `Coding.EncodeVarint64` | ios/Pods/leveldb-library/util/coding.cc:55-64 | the loop gives the varint |
| `Coding.GetVarint` | ios/Pods/leveldb-library/util/coding.cc:86-131 | the decoding loop accepts and gives what the recursive reading does, in registers of the given width |
| `Coding.PrefixedRoundTrip` | ios/Pods/leveldb-library/util/coding.cc:72-165 | a length-prefixed string is read back, whatever follows it |
| `Coding.GetLengthPrefixedSlice` | ios/Pods/leveldb-library/util/coding.cc:155-165 | the slice and the rest, or a refusal when the input is short |
| `BlockFormat.BlockBuilder.Add` | ios/Pods/leveldb-library/table/block_builder.cc:71-105 | the entry is appended, sharing the longest prefix with the key before unless a restart is due, with its restart point |
| `BlockFormat.BlockBuilder.Finish` | ios/Pods/leveldb-library/table/block_builder.cc:61-69 | the block is the entries, the restart offsets and their number |
| `BlockFormat.BlockBuilder.CurrentSizeEstimate` | ios/Pods/leveldb-library/table/block_builder.cc:55-59 | the size the block would have if finished now |
| `BlockFormat.RestartsAtMultiples` | ios/Pods/leveldb-library/table/block_builder.cc:71-87 | the restart points are the entries at the multiples of the interval |
| `BlockFormat.EveryRestart` | ios/Pods/leveldb-library/table/block_builder.cc:71-87 | every restart point is in the restart array |
| `BlockExample.TwoEntries` | ios/Pods/leveldb-library/table/block_builder.cc:61-105 | the bytes of a block with two entries |
| `Blocks.ReadTrailer` | ios/Pods/leveldb-library/table/block.cc:20-40 | where the restart array is; refused exactly if the contents are too short for it; right for every built block |
| `Blocks.DecodeEntry` | ios/Pods/leveldb-library/table/block.cc:55-77 | the three lengths, on the one-byte fast path and on the general one |
| `Blocks.BlockIter.ParseNextKey` | ios/Pods/leveldb-library/table/block.cc:225-252 | the next entry, its key rebuilt from the shared prefix, or the end |
| `Blocks.BlockIter.Next` | ios/Pods/leveldb-library/table/block.cc:138-141 | the entry after the current one |
| `Blocks.BlockIter.Prev` | ios/Pods/leveldb-library/table/block.cc:143-162 | the entry before the current one, found through a restart point |
| `Blocks.BlockIter.FindRestart` | ios/Pods/leveldb-library/table/block.cc:164-193 | the binary search ends at the last restart point whose key is below the target, or at the first: every key before it is below the target, and none at a later restart point is |
| `Blocks.BlockIter.Seek` | ios/Pods/leveldb-library/table/block.cc:164-202 | the first entry whose key is not below the target |
| `Blocks.BlockIter.SeekToFirst` | ios/Pods/leveldb-library/table/block.cc:204-207 | the first entry |
| `Blocks.BlockIter.SeekToLast` | ios/Pods/leveldb-library/table/block.cc:209-214 | the last entry |
| `Blocks.Build` | ios/Pods/leveldb-library/table/block_builder.cc:61-105 | adding pairs one by one and finishing gives the block of those pairs |
| `Blocks.Walk` | ios/Pods/leveldb-library/table/block.cc:138-252 | walking through a built block gives back exactly the pairs that were added, for every restart interval |
| `Comparators.FindShortestSeparator` | ios/Pods/leveldb-library/util/comparator.cc:31-52 | a key in [start, limit) no longer than start, changed exactly if the first differing byte can be raised, and then cut after that byte, which is one more |
| `Comparators.FindShortSuccessor` | ios/Pods/leveldb-library/util/comparator.cc:54-67 | a key not below the key and no longer; unchanged exactly for a run of 0xff bytes, otherwise cut after its first other byte, which is one more |
| `Comparators.FindInternalSeparator` | ios/Pods/leveldb-library/db/dbformat.cc:65-82 | the key itself, or a shorter one whose user key lies strictly between the two, with the tag that sorts before all others of that user key; shortened exactly if the first differing byte of the user key can be raised and is not its last |
| `Comparators.FindInternalSuccessor` | ios/Pods/leveldb-library/db/dbformat.cc:84-97 | the key itself, or a shorter one with a greater user key and the tag that sorts before all others of it; shortened exactly if a byte of the user key before its last is not 0xff |
| `Comparators.InternalTransitive` | ios/Pods/leveldb-library/db/dbformat.cc:47-63 | the order of internal keys is transitive |
| `Bloom.CreateFilter` | ios/Pods/leveldb-library/util/bloom.cc:28-54 | the filter has exactly the bits that the keys' probes fall on, so it matches every key, and another string exactly if all its probes fall on such bits |
| `Bloom.KeyMayMatch` | ios/Pods/leveldb-library/util/bloom.cc:56-80 | whether every probe of the key finds its bit set; reserved encodings match |
| `Bloom.DeltaRotates` | ios/Pods/leveldb-library/util/bloom.cc:47 | the step between probes is the hash rotated right by 17 bits: its lower 15 bits are the upper 15 of the hash |
| `Bloom.ProbeIs` | ios/Pods/leveldb-library/util/bloom.cc:46-52 | probe j is the hash and j steps, in 32 bits |
| `FilterBlocks.FilterBlockBuilder.StartBlock` | ios/Pods/leveldb-library/table/filter_block.cc:21-27 | the keys so far go to the filter of their offset; the next keys belong to this offset's filter |
| `FilterBlocks.FilterBlockBuilder.GenerateFilter` | ios/Pods/leveldb-library/table/filter_block.cc:51-75 | the pending keys, cut out of their flattened form, become one filter that matches all of them |
| `FilterBlocks.FilterBlockBuilder.Finish` | ios/Pods/leveldb-library/table/filter_block.cc:35-49 | filters, their offsets, where those start, and the base |
| `FilterBlocks.OneFilterBytes` | ios/Pods/leveldb-library/table/filter_block.cc:35-49 | the bytes of a block with one filter |
| `FilterBlocks.FilterMayMatch` | ios/Pods/leveldb-library/table/filter_block.cc:77-104 | the answer of the filter of the block's offset; for contents that nobody built: yes if they are too short, name no filter for the offset, or name one out of order or out of range, and no only if it ends where it starts there |
| `TableFormat.SepsSorted` | ios/Pods/leveldb-library/table/table_builder.cc:103-110 | the separators are in order |
| `TableFormat.FoundInBlock` | ios/Pods/leveldb-library/table/table.cc:214-242 | the entry found in the block that the index names is the first one of the whole table |
| `TableFormat.NotInBlock` | ios/Pods/leveldb-library/table/table.cc:214-242 | if that block has none, the first entry of the table has another user key |
| `TableBuilders.TableBuilder.Add` | ios/Pods/leveldb-library/table/table_builder.cc:94-123 | the entry joins the current block; a pending index entry gets its separator; a full block is flushed |
| `TableBuilders.TableBuilder.Flush` | ios/Pods/leveldb-library/table/table_builder.cc:125-139 | the block goes to the file, its index entry waits, and a new filter range starts |
| `TableBuilders.TableBuilder.Finish` | ios/Pods/leveldb-library/table/table_builder.cc:198-253 | the table is what was added, in order, cut into blocks by their size, one block after the other, with separators no longer than the last keys and filters that know every key; its fields are wide enough if the lengths of what was added are below a bound, and then, or whenever they are, lookups work |
| `TableBuilders.LaidIsOk` | ios/Pods/leveldb-library/table/table_builder.cc:125-253 | a table laid out so serves lookups if its block sizes, offsets, index and filter fit their fields |
| `TableSizes.EndSize` | ios/Pods/leveldb-library/table/table_builder.cc:125-196 | the file takes at most 28 bytes for each entry besides its key and value |
| `TableSizes.IndexSize` | ios/Pods/leveldb-library/table/table_builder.cc:94-123 | the index takes at most 39 bytes for each entry besides its key |
| `TableSizes.FilterBlockSize` | ios/Pods/leveldb-library/table/filter_block.cc:18-76 | the filters take for each key at most as many bytes as it has bits and ten more, and besides no more than the file |
| `TableBuilders.FinishedSize` | ios/Pods/leveldb-library/table/table_builder.cc:198-253 | so the lengths of the entries alone tell that every block, the index and the filters fit 32 bits |
| `Tables.InternalGet` | ios/Pods/leveldb-library/table/table.cc:214-242 | for the user key asked for, what is handed over is what a scan of all entries finds first; what is handed over at all is in a block whose filter does not rule the key out |
| `TableBuilders.BuildAndGet` | ios/Pods/leveldb-library/table/table.cc:214-242 | for every strictly increasing list: the table is a layout of it; a lookup gives the first pair not below the key if that has the key's user key, and never another pair than that first one, with and without filters, whenever the table fits its format, which a bound on the lengths of the pairs ensures |
| `HandleTables.HandleTable.Lookup` | ios/Pods/leveldb-library/util/cache.cc:75-77 | the handle of the key and hash, or none if the table has none |
| `HandleTables.HandleTable.Insert` | ios/Pods/leveldb-library/util/cache.cc:79-93 | the handle replaces the one with its key, if any, across a resize, which happens only if there would be more handles than buckets |
| `HandleTables.HandleTable.Remove` | ios/Pods/leveldb-library/util/cache.cc:95-103 | exactly that handle leaves the table |
| `HandleTables.HandleTable.Resize` | ios/Pods/leveldb-library/util/cache.cc:123-148 | every handle is in its bucket of the power-of-two table, which has room for one in each bucket and is the least such table from four on |
| `LruCaches.LRUCache.Ref` | ios/Pods/leveldb-library/util/cache.cc:218-224 | one more reference; an entry without clients leaves the LRU list |
| `LruCaches.LRUCache.Unref` | ios/Pods/leveldb-library/util/cache.cc:226-238 | one reference less; the last one frees the entry, the last client's moves it to the newest end of the LRU list |
| `LruCaches.LRUCache.FinishErase` | ios/Pods/leveldb-library/util/cache.cc:308-317 | the entry leaves its list and the charge, and loses the cache's reference |
| `LruCaches.LRUCache.Lookup` | ios/Pods/leveldb-library/util/cache.cc:253-260 | the cached entry of the key with one more reference, or none exactly if the key is not cached; the other entries stay in the order of their last release |
| `LruCaches.LRUCache.Release` | ios/Pods/leveldb-library/util/cache.cc:262-265 | the deleter runs exactly if this was the last reference; a cached entry whose last client leaves becomes the newest of the LRU list, which stays in the order of last release |
| `LruCaches.LRUCache.Insert` | ios/Pods/leveldb-library/util/cache.cc:267-304 | the entry is cached under its key; entries of clients stay; others leave until the charge fits or none is left, each released before every one that stays, and none leaves once it fits |
| `LruCaches.LRUCache.Erase` | ios/Pods/leveldb-library/util/cache.cc:319-322 | exactly the entry of the key leaves the cache |
| `LruCaches.LRUCache.Prune` | ios/Pods/leveldb-library/util/cache.cc:324-334 | no entry without clients is left |
| `LruCaches.RefKeeps` | ios/Pods/leveldb-library/util/cache.cc:218-224 | a reference keeps the charge sum, the partition of the lists and the table |
| `LruCaches.UnrefKeeps` | ios/Pods/leveldb-library/util/cache.cc:226-238 | so does giving one back, and no deleter runs twice |
| `LruCaches.EraseKeeps` | ios/Pods/leveldb-library/util/cache.cc:308-317 | so does erasing |
| `ProtoEncoder.OStream.Write` | ios/Pods/nanopb/pb_encode.c:103-125 | a stream takes the bytes exactly if they fit, and a counting stream only counts |
| `ProtoEncoder.EncodeVarint` | ios/Pods/nanopb/pb_encode.c:608-628 | the loop that clears the last top bit writes the varint |
| `ProtoEncoder.EncodeScalar` | ios/Pods/nanopb/pb_encode.c:769-897 | each scalar is written in its encoding, or refused for its size |
| `ProtoEncoder.EncodeSubmessage` | ios/Pods/nanopb/pb_encode.c:717-765 | the counted size is exact, so that the bytes written fit it, at every depth |
| `ProtoEncoder.EncodePacked` | ios/Pods/nanopb/pb_encode.c:147-197 | a packed array with its size, known or counted |
| `ProtoEncoder.EncodeSlot` | ios/Pods/nanopb/pb_encode.c:341-426 | required, optional, repeated and union fields; an array beyond its room is refused |
| `ProtoEncoder.EncodeMessage` | ios/Pods/nanopb/pb_encode.c:528-550 | succeeds exactly if every field is allowed and the bytes fit; then writes exactly the encoding, or counts it |
| `ProtoDecoding.Read32RoundTrip` | ios/Pods/nanopb/pb_decode.c:187-247 | a 32-bit varint is read back by the decoder that checks for overflow |
| `ProtoDecoding.ZigZagRoundTrip` | ios/Pods/nanopb/pb_decode.c:1285-1297 | zigzag numbers are read back |
| `ProtoDecoding.ScalarRoundTrip` | ios/Pods/nanopb/pb_decode.c:1334-1523 | every well-formed scalar is read back, whatever follows it |
| `ProtoDecoder.DecodeVarint32` | ios/Pods/nanopb/pb_decode.c:187-247 | the loop accepts and gives what the recursive reading does |
| `ProtoDecoder.MakeSubstream` | ios/Pods/nanopb/pb_decode.c:372-403 | a stream limited to the length-delimited part, the parent going on behind it |
| `ProtoDecoder.SkipField` | ios/Pods/nanopb/pb_decode.c:278-334 | unknown fields are skipped by wire type |
| `ProtoDecoder.DecodeField` | ios/Pods/nanopb/pb_decode.c:406-483 | one field into its slot: merged, appended, packed, or as the only member of its union |
| `ProtoDecoder.DecodeNoInit` | ios/Pods/nanopb/pb_decode.c:934-1082 | the loop over the stream and the check of the first 64 required fields give the reading that the laws below are about, success and failure alike |
| `ProtoLaws.AcceptedExactly` | ios/Pods/nanopb/pb_decode.c:1034-1082 | bytes are accepted exactly if their fields can be read and the number of each of the first 64 required fields is among those read |
| `ProtoLaws.NothingIsRefused` | ios/Pods/nanopb/pb_decode.c:1034-1082 | no bytes at all are refused for every message with a required field |
| `ProtoLaws.MissingRequired` | ios/Pods/nanopb/pb_decode.c:1034-1082 | every well-formed message with the bytes of one required field left out: refused if the field is among the first 64 required ones; from the 65th on accepted, with the default |
| `ProtoLaws.UnknownField` | ios/Pods/nanopb/pb_decode.c:278-334 | a field the message does not have is read over, whatever its wire type and wherever it stands; groups and numbers that are no wire type are refused |
| `ProtoLaws.ReadOn` | ios/Pods/nanopb/pb_decode.c:952-1020 | reading whole fields and what follows is reading the fields and then what follows |
| `ProtoLaws.LastMemberWins` | ios/Pods/nanopb/pb_decode.c:466-479 | reading a member of a union clears its other members and touches no other field |
| `ProtoLaws.LastScalarWins` | ios/Pods/nanopb/pb_decode.c:406-421 | a value that comes again takes the place of the one before |
| `ProtoLaws.MessagesMerge` | ios/Pods/nanopb/pb_decode.c:1525-1547 | a submessage that comes again is merged: the two are read like one with the fields of both |
| `ProtoLaws.ArrayIsFull` | ios/Pods/nanopb/pb_decode.c:453-464 | an array takes no more values than it has room for |
| `ProtoLaws.UnsignedFits` | ios/Pods/nanopb/pb_decode.c:1382-1404 | an unsigned number is accepted exactly if the field is wide enough |
| `ProtoLaws.BytesFit` | ios/Pods/nanopb/pb_decode.c:1447-1485 | a byte string is accepted exactly if there is room for it |
| `ProtoLaws.InvalidSize` | ios/Pods/nanopb/pb_decode.c:1345-1428 | integer fields of another size than one, two, four or eight bytes are refused |
| `ProtoLaws.ReadsExactly` | ios/Pods/nanopb/pb_decode.c:187-247 | exactly which numbers of up to 64 bits are accepted as 32-bit numbers: those below 32 bits, and those with the 32-bit sign bit, anything in the three bits above it, and then only empty or full bytes |
| `ProtoLaws.SomeOverflowsPass` | ios/Pods/nanopb/pb_decode.c:213-240 | so the check for overflow lets some numbers pass that are no sign extension |
| `ProtoLaws.SignExtended` | ios/Pods/nanopb/pb_decode.c:187-247 | a negative number, which is written in 64 bits, is accepted as its lower 32 bits |
| `ProtoLaws.SignedFits` | ios/Pods/nanopb/pb_decode.c:1345-1380 | a signed number keeps its lower 32 bits, or all 64 in a field of eight bytes, and is accepted exactly if the field is wide enough for what they mean |
| `ProtoLaws.ZigZagFits` | ios/Pods/nanopb/pb_decode.c:1406-1428 | a zigzag number is accepted exactly if the field is wide enough |
| `ProtoLaws.DefaultsAreZero` | ios/Pods/nanopb/pb_decode.c:845-932 | without its bytes a required field is zero, false or empty, and every other field absent |
| `ProtoLaws.TooLongIsRefused` | ios/Pods/nanopb/pb_encode.c:147-160 | no array and no byte string beyond its room is encoded |
| `ProtoLaws.NumberExample` | ios/Pods/nanopb/pb_encode.c:608-671 | the bytes of field 1 with the value 150 |
| `ProtoLaws.StringExample` | ios/Pods/nanopb/pb_encode.c:669-717 | the bytes of a string field |
| `ProtoLaws.PackedExample` | ios/Pods/nanopb/pb_encode.c:147-197 | the bytes of a packed array |
| `ProtoLaws.TagExamples` | ios/Pods/nanopb/pb_encode.c:669-706 | the first bytes of each kind of field |
| `ProtoLaws.SignedExamples` | ios/Pods/nanopb/pb_encode.c:630-638 | zigzag for sint fields, two's complement in 64 bits for the others |
| `ProtoRoundTrip.MessageRoundTrip` | ios/Pods/nanopb/pb_decode.c:934-1096 | decoding the bytes of a well-formed message succeeds, consumes all of them and restores every field |
| `ProtoRoundTrip.ValueRoundTrip` | ios/Pods/nanopb/pb_decode.c:1525-1547 | so does a submessage inside its length-delimited part |
| `ProtoRoundTrip.StringNeedsRoom` | ios/Pods/nanopb/pb_decode.c:1487-1523 | a string is read back exactly if it is shorter than its array: one that fills it is encoded but refused by the decoder |
| `ProtoDecoder.EncodeAndDecode` | ios/Pods/nanopb/pb_encode.c:528-765 | sizing, writing and decoding of every well-formed message agree |

## Left out

- Compactions.Compaction.DoCompactionWork: asks that the oldest snapshot is below the largest sequence number, and numbers its outputs consecutively; in runs with a flush in between, outputs carry any reserved numbers.
- Picking.SetupOtherInputs: the compaction pointer it stores for the next compaction is left out; every starting file is covered.
- VersionBuilder.Builder.Apply: compaction pointers and the seek allowance of a new file are left out.
- LogReader.Reader.ReadPhysicalRecord: a reader that starts at an offset and resynchronizes is left out.
- LogReader.Reader.ReadRecord: the same.
- TableBuilders.TableBuilder.Finish: the metaindex block and the footer are left out.
- Blocks.BlockIter.ParseNextKey: on contents that no builder made, the sum of two lengths is taken without the wrap-around of 32-bit addition.
- LruCaches.LRUCache.Insert: reference counts and charges are unbounded numbers, the lists and hash chains are sequences instead of linked nodes, and nothing is said about the sharding of the cache.
- SkipLists.SearchIsAtomic: each load and store of a link is one step; weaker memory orders are not modelled.
- ProtoRoundTrip.MessageRoundTrip: the shift counter of the 32-bit varint reader is unbounded, and a field's default value is zero.
- ProtoEncoder.EncodeMessage: a struct is a tree of values; its memory layout and the iterator's pointer arithmetic are not modelled.
- Manual compactions with a memtable flush in between: their inputs need not be connected, so they are single steps of a run, and the durability runs leave them out.
- Failing reads, writes and syncs outside the writer queue: files always take what is written; a crash can come between any two steps.
- Reusing logs and manifests after recovery (`reuse_logs`): recovery always starts a new log and a new manifest.
- A failing append that leaves part of a record in the log: in the writer queue a failing append leaves the log as it was.
- LogAndApply fixes the counters of its record before it releases the mutex to write it; a commit here takes them in the step that writes the record.
- Machine crashes that lose unsynced bytes: a process crash keeps every completed append.
- Manifests.Recover: the file metadata of an edit is looked up in a given map to tables; CURRENT and the choice of the manifest are not modelled.
- LogRecovery.RecoverLogFile: tables written when the memtable fills during recovery are part of the durability runs, not of this member.
- The durability runs take a batch in a log as one value, and the memtable as a sorted sequence: that group commit, the skip list and the byte formats provide these is proved about each of them, not as one run.
- CURRENT and the footer and metaindex block of tables as bytes: the manifest is what replaying it gives, and reading an uncorrupted block is the identity.
- The hardware CRC path.
- The stride tables of the checksum as literal numbers: they are the sixteen-byte advance they are meant to be.
- The hash functions of Bloom filters and of the cache: any function will do.
- The number of probes from the bits per key: floating point; any number from 1 to 30.
- Compaction scores, seek counters, statistics, properties, approximate sizes, logging and options.
- The two-level iterator and the table cache: they would only add concatenation and handle reuse.
- Repair of damaged databases and destruction of databases.
- Memory-table memory accounting and the delays of MakeRoomForWrite.
- A memtable switch requested by a null batch that another writer's group absorbs: nothing is claimed about it.
- nanopb callbacks, extensions, pointer fields, fixed-count arrays, fixed-length byte fields and proto3 fields without presence.
- The Flutter and iOS shell, and the other vendored headers: declarations only.
