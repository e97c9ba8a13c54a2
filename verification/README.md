# AegonKV: a verified model of its key-value separation

AegonKV stores large values in append-only blob files and keeps only indices into them in the LSM
tree. This project models the parts of it that have to agree with each other for a value never to
be lost, and proves that they do:

- **Garbage collection** (`GcProtocol.dfy`, `GcInvariant.dfy`, `GcBits.dfy`, `GcTheorems.dfy`,
  `ClientView.dfy`, `GcReclaim.dfy`, `GcExact.dfy`). A step system over a versioned tree, blob files,
  invalid-entry bits, snapshots, any number of GC jobs and crashes. The specification is a map for each
  sequence number, computed from the steps of the user; reads agree with it at every snapshot, at the head
  and after every crash. Jobs also get somewhere: any idle files can be collected, and the bits end exact.
- **Building and reading blob files** (`Coding.dfy`, `BlobFormat.dfy`, `BlobFile.dfy`,
  `BlobFileBuilder.dfy`, `TableBuilder.dfy`, `BlobFileIterator.dfy`, `MergeIterator.dfy`,
  `FormatSamples.dfy`). Byte formats with their round trips, the buffered and unbuffered file builder, the
  table builder that moves values between tree and files, the file iterator and the k-way merge.
- **The manifest** (`Manifest.dfy`, `ManifestProofs.dfy`, `ManifestHistory.dfy`, `EditCollector.dfy`,
  `BlobStorage.dfy`, `RangeDeletes.dfy`). Batched replay against the incremental history and against a book
  kept from the steps, over whole runs with restarts, and the index of a column family's files with all
  its views.
- **Accounting** (`LiveData.dfy`, `FileStates.dfy`, `FileLife.dfy`, `LevelMerge.dfy`, `BitMap.dfy`,
  `InvalidEntries.dfy`). Live data sizes and invalid-entry bitmaps under callbacks that arrive in any
  order, and the states of all files under any interleaving.
- **Smaller algorithms** (`SortedRuns.dfy`, `Scheduler.dfy`, `GcRequests.dfy`, `AcknowledgedCounter.dfy`).
  The sorted-run sweep, the GC scheduler with its condition variable and its queue of requests, and the
  ring-buffer counter of the benchmark.

The parts lean on each other: a GC job's input list is what `Merging.Drain` yields, each record of a new
blob file is referred to by one entry and an entry keeps its meaning because of `TableBuilding.BuildTable`,
the bits of the protocol change as `InvalidEntries.Update` says, and jobs never share a file, as input or
output, because of `FileLife.FilesBehave`.

Code that updates objects is modelled by classes and methods proved against functions on values; the
main theorems are about those functions. `dafny verify dfyconfig.toml` checks the whole project.

What the code does that its comments or design do not say, each with a lemma or method at an input and
the exact condition: an edit built for level merge goes to column family 0; a deleted file can be
asked to merge; an edit for a family that is not open can make every later restart fail; a single-key
file is counted for ever by the sweep; an old blob handle without an old file number, and an empty
list of a collector, do not survive encoding; a failed drop of a column family blocks GC for ever;
overlapping ranges make a range delete fail; a range that ends before it begins can walk past the end
of the listing; an empty bitmap lets offset 0 through its range check; a second `SeekToFirst` goes on
counting indices where the first stopped; a value exactly one window ahead leaves the acknowledged
counter one behind.

## Model

| member | source | states |
|---|---|---|
| ClientView.RunReadsAsTold | AegonKV/src/db_impl.cc:586-700 | The database is what its client was told, over every run with any crashes: a read at the head, at each snapshot and after a crash that keeps any synced prefix equals a map that is computed from the list of steps and not from the state |
| ClientView.WritesTakeEffect | AegonKV/src/db_impl.cc:586-591 | In every reachable state a put and a delete are seen at once, by their own key alone, and by no snapshot |
| GcTheorems.SnapshotReadsExact | AegonKV/src/db_impl.cc:636-700 | In every reachable state, whatever GC, compaction, purge and crashes interleaved, a read at a live snapshot finds its blob file and returns the value the user had written as of that sequence |
| GcTheorems.HeadReadsExact | AegonKV/src/db_impl.cc:636-700 | The same for a read at the newest sequence |
| GcTheorems.InputsUnreferencedAtDelete | AegonKV/src/blob_gc_job.cc:881-905 | When a GC job marks its inputs obsolete, no key's newest version points into them, at the head or at any point of the log that a crash may fall back to |
| GcTheorems.BitsMeanUnreferenced | AegonKV/src/blob_gc_job.cc:253-258 | In every reachable state a bit that is set, will be set by a callback, or was copied by a job stands for a record that nothing refers to and no rewrite or build will refer to |
| GcTheorems.CrashFindsFiles | AegonKV/src/blob_gc_job.cc:589-629 | At every crash point the file of every durable newest version is in the file set the manifest recovers |
| GcTheorems.CrashReadsExact | AegonKV/src/blob_file_set.cc:41-137 | After a crash at any point, reading any key gives what the durable history says |
| GcTheorems.MaintenanceInvisible | AegonKV/src/blob_gc_job.cc:193-356 | No step but a user write or a crash changes what any reader at the head or at a live snapshot sees: the system refines a plain versioned map |
| GcTheorems.StepInv | AegonKV/src/blob_gc_job.cc:193-905 | Every step of users, flush, compaction, callbacks, purge, GC and restart keeps the invariant, bits included |
| GcInvariant.GcScanInv | AegonKV/src/blob_gc_job.cc:231-340 | Each turn of the scan, in its skip, discard, fallback and copy branches, leaves every input record still to do, in a batch, or dead; for a job that goes by its bitmap, given that its copied bits are right |
| GcTheorems.JobBitsRight | AegonKV/src/blob_gc_job.cc:520-546 | They are: the bits a job copied when it started stay right while it runs |
| GcReclaim.IdleFilesCanBeCollected | AegonKV/src/blob_gc_job.cc:193-905 | From every reachable state any live, settled, idle files can be collected, in either mode and with or without the bitmap: some run of maintenance steps leaves none of them readable and every key reading as before |
| GcReclaim.ScanKeepsIff | AegonKV/src/blob_gc_job.cc:231-340 | Without a bitmap a scan queues a record for rewriting exactly if its key still points at it |
| GcReclaim.BitmapScanKeepsIff | AegonKV/src/blob_gc_job.cc:253-258 | With a bitmap, exactly if its bit was not set when the job began |
| GcReclaim.ScanTakesFile | AegonKV/src/blob_gc_job.cc:289-312 | A copied record goes to the current output file; a new number is taken exactly if there is none or the file is changed |
| GcReclaim.JobsKeepToTheirMode | AegonKV/src/blob_gc_job.cc:272-287 | Over every run a fallback job writes values inline and no file, any other only re-points |
| GcReclaim.InputsBecomeObsolete | AegonKV/src/blob_gc_job.cc:881-905 | All inputs of a job leave the live files and become obsolete at the newest sequence number, and no other file does |
| GcReclaim.PurgeKeepsIff | AegonKV/src/blob_storage.cc:162-190 | A purge leaves an obsolete file exactly if some snapshot is as old as its deletion |
| GcReclaim.AbortedInputsAreFree | AegonKV/src/db_impl_gc.cc:245-252 | A job that gives up leaves its inputs live and free for another job |
| GcReclaim.ValueCanMoveOut | AegonKV/src/table_builder.cc:136-222 | Any durable inline value can be moved to a new blob file that is then in use, and every key still reads as before |
| GcReclaim.TreeCanBeCompacted | AegonKV/src/db_impl.cc:1325-1419 | With all synced and no snapshots some run of drops leaves one version for each key that has a value and none for the others, and every key reads as before |
| GcExact.BitsExact | AegonKV/src/db_impl.cc:1325-1419 | After any run in which reference losses are reported, once nothing is under way, a bit of a live file is set if and only if nothing refers to its record |
| GcExact.BitmapJobExact | AegonKV/src/blob_gc_job.cc:520-546 | So a bitmap job that begins then keeps exactly what is referred to |
| GcBits.RelocateBits | AegonKV/src/table_builder.cc:196-222 | Placing each new record once, and announcing what a compaction let go, keeps every bit right |
| GcBits.DropBits | AegonKV/src/db_impl.cc:1372-1405 | A dropped version announces the record only it referred to |
| GcBits.GcRewriteBits | AegonKV/src/blob_gc_job.cc:774-829 | A re-point gives its target the one reference; a refused one announces it |
| GcInvariant.RepointIsGoodWrite | AegonKV/src/blob_gc_job.cc:29-63 | The write the callback lets through means for the user what the key meant before |
| GcInvariant.PurgeInv | AegonKV/src/blob_storage.cc:162-190 | Removing files that no snapshot can see leaves every view readable |
| ManifestHistory.ManifestIsTheBook | AegonKV/src/blob_file_set.cc:41-227 | Over every run with any restarts the open families, the counter, the live files of each open family and what the next restart brings back for any family, closed before or not, are those of a book kept from the steps alone |
| ManifestProofs.RestartRebuilds | AegonKV/src/blob_file_set.cc:41-137 | After any run with any number of restarts, the next restart accepts the log, brings back in every family, open before or not, exactly the files added and not deleted, with none obsolete, and resumes the counter above every logged number |
| ManifestProofs.LogAndApplySound | AegonKV/src/blob_file_set.cc:208-227 | An accepted edit with fresh numbers, which in a family that is not open deletes only files that are there, keeps the log such that one batched replay gives the live files |
| ManifestProofs.ReplaySound | AegonKV/src/blob_file_set.cc:64-91 | Replaying a sound log in one batch is accepted and equals the incremental history |
| ManifestProofs.SnapshotCollects | AegonKV/src/blob_file_set.cc:178-206 | The log a snapshot writes collects to exactly the live files of every family |
| ManifestProofs.NumbersStayFresh | AegonKV/src/edit_collector.h:100-108 | Over every run, the file number handed out next is in no storage, in no logged edit and not handed out already |
| ManifestProofs.ReplaysIff | AegonKV/src/edit_collector.h:55-75 | After an accepted edit with fresh numbers a restart succeeds if and only if the edit deletes nothing twice and, where the restart opens its family, nothing that was never added |
| ManifestProofs.AcceptedIff | AegonKV/src/blob_file_set.cc:208-227 | An edit is accepted exactly if it repeats no number and, for an open family, adds no file that is there and deletes only files that are there and not obsolete, or that it adds |
| ManifestProofs.SecondDeleteUnseen | AegonKV/src/edit_collector.h:55-75 | In a family that is not open a second delete of a file is accepted, and no restart succeeds |
| ManifestProofs.UnopenedDeleteBreaksRestart | AegonKV/src/edit_collector.h:55-75 | A run from a new database that leads there: every restart fails |
| ManifestProofs.LevelMergeEditGoesToDefaultCf | AegonKV/src/db_impl.cc:1433-1556 | The edit of the level-merge branch has no family set: accepted exactly when its files are live files of family 0, and it changes no other family |
| ManifestProofs.DeadFileOfOtherFamilyStays | AegonKV/src/db_impl.cc:1433-1556 | A dead file of family 1: the edit is refused and the file stays, where one with the family set would go through |
| Manifest.AddFilesClosed | AegonKV/src/edit_collector.h:124-132 | Added files are collected exactly when their numbers are new and distinct, and all of them are |
| Manifest.DeleteFilesClosed | AegonKV/src/edit_collector.h:134-141 | Deleted files likewise |
| EditCollection.EditCollector.AddEdit | AegonKV/src/edit_collector.h:23-53 | The collector's new state is that of the specification, or it refuses and stays failed |
| EditCollection.SealFamily | AegonKV/src/edit_collector.h:143-186 | The check of one family accepts exactly the edits the specification accepts |
| EditCollection.ApplyFamily | AegonKV/src/edit_collector.h:188-211 | Applying to the storage object adds and marks exactly the specified files, dates each deletion with the sequence of the edit, and keeps all its views |
| EditCollection.BlobFileSet.LogAndApply | AegonKV/src/blob_file_set.cc:208-227 | New file set, log and counter are those of the specification |
| EditCollection.BlobFileSet.WriteSnapshot | AegonKV/src/blob_file_set.cc:178-206 | The written log is a snapshot of the live files |
| EditCollection.BlobFileSet.Recover | AegonKV/src/blob_file_set.cc:41-137 | The whole file set rebuilt from a log is that of the batched replay, with a snapshot as its log and no number handed out |
| EditCollection.CollectLog | AegonKV/src/blob_file_set.cc:64-91 | The replay loop collects what the specification collects, or fails with it |
| Storage.BlobStorage.AddBlobFile | AegonKV/src/blob_storage.cc:91-107 | The file joins map, ordered listing and level count together |
| Storage.BlobStorage.MarkFileObsolete | AegonKV/src/blob_storage.cc:109-137 | The file becomes obsolete in all views and is listed once |
| Storage.BlobStorage.RemoveFile | AegonKV/src/blob_storage.cc:139-160 | The file leaves the map and, by key, the ordered listing |
| Storage.BlobStorage.GetObsoleteFiles | AegonKV/src/blob_storage.cc:162-190 | Exactly the obsolete files whose deletion is below the oldest sequence are removed, each once, and all views still agree |
| Storage.ExpiredIff | AegonKV/src/blob_storage.cc:162-190 | A file of the obsolete list is taken exactly if it became obsolete before the oldest sequence |
| Storage.BlobStorage.GetBlobFilesInRanges | AegonKV/src/blob_storage.cc:29-70 | The ordered walk returns what a scan of all files returns |
| Storage.BoundsSuffice | AegonKV/src/blob_storage.cc:36-66 | Lower and upper bound cut off only files that are not in the range |
| Storage.WalkableIff | AegonKV/src/blob_storage.cc:36-66 | The walk between the bounds reaches its end if and only if no file starts strictly between the end of the range and a begin above it |
| Storage.ListedOnceIff | AegonKV/src/blob_storage.cc:29-70 | The query lists distinct files if and only if no live file lies in two of the ranges |
| Storage.InRangeIff | AegonKV/src/blob_storage.cc:47-61 | A live file with keys is in a range exactly if all the keys it may hold are |
| RangeDeletes.DeleteBlobFilesInRanges | AegonKV/src/blob_file_set.cc:287-309 | Query, edit and application together, for ranges whose walks are defined: it succeeds if and only if the family is open and no live file lies in two of the ranges, and then exactly the files in the ranges become obsolete, as of the given sequence, in the file set and in the storage with all its views; otherwise nothing changes |
| RangeDeletes.RangeDeleteIff | AegonKV/src/blob_file_set.cc:287-309 | The edit of a range delete whose walks are defined is accepted if and only if no live file lies in two of the ranges |
| RangeDeletes.RangeDeleteMarks | AegonKV/src/blob_file_set.cc:287-309 | When it is, exactly the files in the ranges become obsolete |
| RangeDeletes.OverlappingRangesRefused | AegonKV/src/blob_file_set.cc:287-309 | One file in two overlapping ranges: the delete is refused |
| RangeDeletes.ReversedRangeRunsOff | AegonKV/src/blob_storage.cc:36-66 | One file that starts at 5 and the range from 10 to 1: the ranges are apart and yet the walk is not defined |
| Storage.BlobStorage.ComputeGCScore | AegonKV/src/blob_storage.cc:202-228 | The scores list every file that is not obsolete once, in falling order; small files score the threshold and the others their discardable ratio |
| Storage.RatioOrders | AegonKV/src/blob_format.h:273-280 | Of two files of one size the one with less live data has the higher ratio, from all live at 0 to none at 1 |
| BlobFormat.IndexRoundTripIff | AegonKV/src/blob_format.cc:96-149 | A blob index survives encoding if and only if it has an old file or no old handle |
| BlobFormat.OldHandleLost | AegonKV/src/blob_format.cc:96-149 | An index with an old handle and no old file that decodes to another index |
| BlobFormat.IndexDecodes | AegonKV/src/blob_format.cc:114-143 | What decoding an encoded index gives, with or without its old half |
| BlobFormat.MetaRoundTrip | AegonKV/src/blob_format.cc:151-189 | File metadata decodes to its persistent fields and leaves the bytes after it |
| BlobFormat.EditRoundTrip | AegonKV/src/version_edit.cc:8-87 | Every edit decodes to itself, from exactly its bytes |
| BlobFormat.DecodeEdit | AegonKV/src/version_edit.cc:25-87 | The tag loop computes the specified decoding, errors included |
| BlobFormat.SizesRoundTrip | AegonKV/src/blob_file_size_collector.cc:17-44 | A map of sizes decodes to itself in whatever order it was written |
| BlobFormat.DecodeSizes | AegonKV/src/blob_file_size_collector.cc:26-44 | The decoding loop computes the specified decoding |
| BlobFormat.EntriesRoundTripIff | AegonKV/src/blob_validation_collector.cc:17-56 | A map of index lists decodes to itself if and only if no list is empty |
| BlobFormat.EmptyListForgotten | AegonKV/src/blob_validation_collector.cc:17-56 | File 5 with an empty list decodes to no file at all |
| BlobFormat.DecodeEntries | AegonKV/src/blob_validation_collector.cc:31-56 | The nested decoding loops compute the specified decoding |
| BlobFormat.RecordRoundTrip | AegonKV/src/blob_format.cc:20-32 | A blob record decodes to itself |
| BlobFile.LawsAreConsistent | AegonKV/src/util.cc:17-43 | The laws asked of checksum, compression and meta blocks can be met |
| BlobFile.EncodedReads | AegonKV/src/blob_format.cc:43-94 | Wherever the bytes of an encoded record lie in a file, header, checksum and decompression give the record back |
| BlobFile.FooterRoundTrip | AegonKV/src/blob_format.cc:326-357 | The padded, checksummed footer decodes to its handle |
| FormatSamples.IndexSample | AegonKV/src/blob_format.cc:96-112 | The bytes of an index with and without its old half |
| FormatSamples.MetaSample | AegonKV/src/blob_format.cc:151-158 | The bytes of a file description |
| FormatSamples.EditSample | AegonKV/src/version_edit.cc:8-23 | The bytes of an edit, tags included |
| FormatSamples.HeaderSample | AegonKV/src/blob_format.cc:298-305 | The bytes of a file header |
| FormatSamples.FooterSample | AegonKV/src/blob_format.cc:326-334 | The bytes of a footer |
| FormatSamples.FramingSample | AegonKV/src/blob_format.cc:43-57 | The layout of a stored record |
| FormatSamples.PropertySamples | AegonKV/src/blob_validation_collector.cc:17-30 | The bytes of both table properties |
| FormatSamples.ReadIsChecked | AegonKV/src/blob_format.cc:58-94 | A record is read only if its checksum is that of the bytes its size gives |
| FormatSamples.HeaderIsChecked | AegonKV/src/blob_format.cc:307-324 | A header is accepted exactly with its magic number, version 1 or 2 and no unknown flag |
| FormatSamples.FooterIsChecked | AegonKV/src/blob_format.cc:336-357 | A footer is accepted exactly if its handle decodes, with its magic number and checksum |
| FormatSamples.RecordSample | AegonKV/src/blob_format.cc:20-23 | The bytes of a record |
| BlobFile.ImageLayout | AegonKV/src/blob_file_iterator.cc:22-77 | Start and end of the records and the dictionary are found again from the bytes of a finished file |
| BlobFile.HandleResolves | AegonKV/src/blob_file_reader.cc:86-219 | A point read at any handle the builder gave out returns the record it was given for |
| BlobBuilding.BlobFileBuilder.Add | AegonKV/src/blob_file_builder.cc:51-83 | Buffered, record and context wait, and all leave together in order exactly once the samples reach the training size; unbuffered, the context leaves with the handle of its record |
| BlobBuilding.BlobFileBuilder.FlushSampleRecords | AegonKV/src/blob_file_builder.cc:117-141 | The two-index loop gives the k-th context without a value the handle of record k and keeps the order of all |
| BlobBuilding.BlobFileBuilder.WriteEncoderData | AegonKV/src/blob_file_builder.cc:143-154 | The handle is that of the next record: place after all earlier records, length, index |
| BlobBuilding.BlobFileBuilder.EnterUnbuffered | AegonKV/src/blob_file_builder.cc:90-115 | The dictionary is trained on all samples and every waiting record is written with it |
| BlobBuilding.BlobFileBuilder.Finish | AegonKV/src/blob_file_builder.cc:156-212 | The file is exactly header, records, dictionary and meta index if any, and footer; entries and live size are those of the records |
| BlobBuilding.LiveSizeIsSum | AegonKV/src/blob_file_builder.cc:143-147 | The live data size is the sum of the handles' sizes |
| BlobIteration.HandleSpans | AegonKV/src/blob_file_builder.cc:143-154 | Handles are contiguous, disjoint and indexed from 0 |
| BlobIteration.ImageHolds | AegonKV/src/blob_file_iterator.cc:134-165 | A finished file reads, record by record, as the records it was built from |
| BlobIteration.ReadFinished | AegonKV/src/blob_file_iterator.cc:22-198 | Iterating over any finished file, with or without dictionary, returns exactly its records under the blob indices the builder gave out |
| BlobIteration.ReadAll | AegonKV/src/blob_file_iterator.cc:79-198 | Iterating from the first seek returns exactly the records, under their own indices, and stops at the end of the records |
| BlobIteration.BlobFileIterator.SeekToFirst | AegonKV/src/blob_file_iterator.cc:79-84 | Shows the first record; its index is where the counter was, so 0 only the first time |
| BlobIteration.SeekTwice | AegonKV/src/blob_file_iterator.cc:79-84 | Two seeks on a new iterator show record 0 under index 1 |
| BlobIteration.BlobFileIterator.Next | AegonKV/src/blob_file_iterator.cc:134-198 | Shows the next record and its handle, or ends |
| BlobIteration.BlobFileIterator.IterateForPrev | AegonKV/src/blob_file_iterator.cc:97-132 | Puts the cursor on the one record that contains the offset; an error from the end of the records on; inside the header on the first record with its index counted down below zero |
| TableBuilding.BuildTable | AegonKV/src/table_builder.cc:27-297 | For every run of additions in every run mode, with buffering and file rotation, the table holds one entry per input in order, kept, expanded or moved to a blob file exactly as mode, size, level and mark ask, which is stated case by case, with the same key and sequence and the same value for a reader of the finished files; each record of a new file is referred to by one entry, and two entries that moved hold different bytes |
| TableBuilding.TitanTableBuilder.Add | AegonKV/src/table_builder.cc:27-116 | The entry is taken up behind all earlier ones, unless its key does not parse or an index that must be read does not decode |
| TableBuilding.TitanTableBuilder.AddBlob | AegonKV/src/table_builder.cc:136-194 | The value goes to the file under way or a new one, the file is closed exactly when it has reached its target size, and the order of entries is kept |
| TableBuilding.TitanTableBuilder.AddBase | AegonKV/src/table_builder.cc:119-134 | The entry goes to the table, or behind those that wait |
| TableBuilding.TitanTableBuilder.FinishBlobFile | AegonKV/src/table_builder.cc:224-265 | What waited joins the table before what the caller still owes it |
| TableBuilding.TitanTableBuilder.Finish | AegonKV/src/table_builder.cc:278-297 | Every input has its entry, each means the same once the finished files are there, and each new record has one entry |
| TableBuilding.RouteSound | AegonKV/src/table_builder.cc:41-115 | No choice of where an entry goes changes the value a user reads |
| TableBuilding.FaithfulAsAsked | AegonKV/src/table_builder.cc:40-115 | In fallback mode every index that reads comes out inline whatever the level, in normal mode large values move and with level merge so do indices into files below the target level or marked, and all else stays byte for byte |
| TableBuilding.BrokenIff | AegonKV/src/table_builder.cc:30-82 | A run ends exactly at a key that does not parse, or at an index that does not decode in fallback mode or in normal mode with level merge from the merge level on |
| TableBuilding.MeaningKept | AegonKV/src/table_builder.cc:196-222 | A faithful entry resolves, through the bytes of the new file, to the value its input resolved to |
| TableBuilding.EachReferredOnce | AegonKV/src/table_builder.cc:196-222 | Each record of a new blob file is referred to by one entry of the table, kept entries included, and by no other |
| TableBuilding.MovedApart | AegonKV/src/table_builder.cc:196-222 | Two entries whose values moved hold different index bytes, equal values and keys or not |
| Merging.Drain | AegonKV/src/blob_file_iterator.cc:222-245 | The merge terminates and yields every record of every file exactly once, in file order, and is sorted if and only if every file is |
| Merging.BlobFileMergeIterator.SeekToFirst | AegonKV/src/blob_file_iterator.cc:222-233 | Current is a file with a smallest first key; none only if all files are empty |
| Merging.BlobFileMergeIterator.Next | AegonKV/src/blob_file_iterator.cc:235-245 | One record is passed and current is again a file with a smallest key; none only at the end of all |
| LiveData.AnyOrder | AegonKV/src/db_impl.cc:1225-1273 | One creation event among any compaction callbacks, in any order: no clamp, and normal with the exact size, unless a compaction reported no bytes |
| LiveData.NoLiveDataNoReferences | AegonKV/src/db_impl.cc:1440-1545 | Over every run with GC, restarts and ignored deltas, a file that is not pending counts at least what is referred to, so none with no live data is referred to |
| LiveData.QuietFilesExact | AegonKV/src/db_impl.cc:1440-1521 | Untouched by GC and with no callback pending, a file counts exactly what is referred to and has left the pending state |
| LiveData.LiveDataConserved | AegonKV/src/db_impl.cc:1440-1521 | Conservation over every run, GC included: live data is what is referred to, what callbacks will still subtract and what was lost without a report, to the byte |
| LiveData.LastCallbackFinds | AegonKV/src/db_impl.cc:1485-1536 | Untouched by GC, a file is found empty by its last callback exactly if no table refers to it |
| LiveData.CompactionMarksIff | AegonKV/src/db_impl.cc:1519-1545 | A callback marks a file for merge exactly if level merge is on, it is normal with live data left, and much of it can be discarded |
| LiveData.FlushSettles | AegonKV/src/db_impl.cc:1240-1273 | A flush settles a pending file at what it reports less what the file owes, and no other |
| LiveData.StatesFollow | AegonKV/src/blob_format.cc:198-255 | The state each step gives a file, callbacks aside |
| LiveData.FlushOne | AegonKV/src/db_impl.cc:1240-1273 | The branches for one file give the specified size and state |
| LiveData.CompactOne | AegonKV/src/db_impl.cc:1440-1540 | The branches for one file give the specified size, state and emptiness |
| LiveData.DeletedWithoutReferences | AegonKV/src/db_impl.cc:1490-1533 | A callback finds a file without live data only when no table and no memtable entry refers to it and no rewrite is due |
| LiveData.StepInv | AegonKV/src/blob_format.h:263-272 | Every step keeps the account; no callback clamps, wraps or fails an assertion |
| LiveData.CompactionDiff | AegonKV/src/db_impl_gc.cc:26-50 | The difference for a file is the bytes in all outputs less the bytes in all inputs |
| LiveData.OnFlushCompleted | AegonKV/src/db_impl.cc:1225-1273 | Exactly the reported files are updated, each once |
| LiveData.OnCompactionCompleted | AegonKV/src/db_impl.cc:1440-1551 | Exactly the reported files are updated, each once, and those without live data are collected |
| FileLife.FilesBehave | AegonKV/src/blob_format.cc:198-255 | With level merge off, over every interleaving, no state assertion fails, no file is marked for merge, and a file is an input or an output of at most one running job |
| FileLife.StepInv | AegonKV/src/blob_gc.cc:27-41 | Every step keeps the agreement of jobs and file states |
| FileLife.ObsoleteForEver | AegonKV/src/blob_format.cc:198-255 | Through every run a file stays obsolete until a restart drops it |
| FileLife.EachFileByItself | AegonKV/src/blob_format.cc:198-255 | Over every interleaving each file has the state and the job that the steps naming it give when taken by themselves |
| LevelMerge.MergeFailsIff | AegonKV/src/db_impl.cc:1433-1564 | The whole compaction callback with level merge on: the merge event fails its assertion if and only if the family is the default one and a file that settled without live data is among too many candidates at some key |
| LevelMerge.EmptiedCandidateSettled | AegonKV/src/db_impl.cc:1480-1496 | Such a file was waiting for its creation event and had lost all its data |
| LevelMerge.LookAt | AegonKV/src/db_impl.cc:1440-1545 | The branches for one file decide whether it is emptied and whether it is a candidate |
| LevelMerge.CollectLists | AegonKV/src/db_impl.cc:1440-1545 | The loop collects exactly the emptied files and the candidates |
| LevelMerge.DefaultFamilyAccepts | AegonKV/src/db_impl.cc:1552-1556 | In the default family the edit is always accepted |
| LevelMerge.CompactionInputThatFails | AegonKV/src/db_impl.cc:1480-1556 | Two settling files, one of them dead, and one allowed run: the event fails |
| LevelMerge.RangeDeleteFailsIff | AegonKV/src/db_impl.cc:975-1001 | After a range delete of tables the event fails if and only if a reported file with live data and much to discard is pending or in a GC job |
| LevelMerge.RangeDeleteInputThatFails | AegonKV/src/db_impl.cc:975-1001 | A file in a GC job that loses a table |
| FileStates.PickBlobGC | AegonKV/src/blob_gc_picker.cc:21-91 | The result is the one shortest front of the eligible files that fills a batch, all normal and distinct, asking for another job exactly if the rest exceeds a smallest batch; nothing exactly if that batch is empty, too small, or one small file with little to discard |
| FileStates.EligibleIff | AegonKV/src/blob_gc_picker.cc:31-42 | A file is eligible exactly if its score reaches the ratio and it is normal |
| FileStates.BatchUnique | AegonKV/src/blob_gc_picker.cc:32-66 | Sizes and limits determine the batch |
| FileStates.BlobGC.constructor | AegonKV/src/blob_gc.cc:6-31 | The picked files are all being collected and nothing else about them changes |
| FileStates.BlobGC.ReleaseGcFiles | AegonKV/src/blob_gc.cc:33-41 | Inputs and outputs become normal, except those deleted meanwhile |
| BitMaps.BitMap.SetBit | AegonKV/src/blob_validation_check.cc:26-54 | Sets one bit and no other; refused exactly out of range; never outside the bytes |
| BitMaps.BitMap.GetBit | AegonKV/src/blob_validation_check.cc:55-73 | The bit that was last set |
| BitMaps.BitMap.BitOps | AegonKV/src/blob_validation_check.cc:74-177 | Four-word loop and byte tail together are the operation at every bit, also on a bitmap with itself |
| BitMaps.CombineBytes | AegonKV/src/blob_validation_check.cc:92-175 | The unrolled loop and the tail combine exactly the first bytes, for every size |
| BitMaps.OpsAreBitwise | AegonKV/src/blob_validation_check.cc:102-139 | And, or and xor of machine words are the same of their bytes and bits |
| BitMaps.BitMap.CopyTo | AegonKV/src/blob_validation_check.cc:178-191 | A copy with the same bits, refused if the target has bits |
| BitMaps.SafeIff | AegonKV/src/blob_validation_check.cc:8-25 | Every offset that passes the range check has a byte if and only if there are bytes and enough of them for the valid bits |
| BitMaps.BitMap.Empty | AegonKV/src/blob_validation_check.cc:14-15 | An empty bitmap passes the range check for offset 0 without having a byte |
| InvalidEntries.UpdateAll | AegonKV/src/db_impl.cc:1325-1419 | After any callbacks in any order a bit is set exactly if it was or one of them invalidates it: in its inputs and not its outputs, or dropped by GC |
| InvalidEntries.Update | AegonKV/src/blob_gc_job.cc:848-863 | One callback sets exactly the bits it invalidates and clears none |
| InvalidEntries.BitsAreSound | AegonKV/src/db_impl.cc:1325-1419 | If no entry has two references, over every interleaving a set bit means that nothing refers to the entry, and with no callback pending the bits are exactly the dropped entries |
| InvalidEntries.BitsAreExact | AegonKV/src/db_impl.cc:1325-1419 | Without memtable overwrites and range deletes, and with no callback pending, a bit is set if and only if the entry was placed and nothing refers to it |
| InvalidEntries.UpdateIsTheStep | AegonKV/src/db_impl.cc:1372-1405 | What an update does to the bitmap is what the step of the tree does |
| InvalidEntries.CompactionSoundIff | AegonKV/src/db_impl.cc:1372-1405 | Whatever the references, a compaction and its callback leave the bits sound if and only if no other table refers to an entry that was dropped |
| InvalidEntries.TwoReferencesBreakIt | AegonKV/src/db_impl.cc:1372-1405 | Two references to an entry, one compacted away: a live entry is marked |
| SortedRuns.Sweep | AegonKV/src/db_impl.cc:1026-1064 | Whatever order the sort gives ties, exactly the files are marked that cover some key covered by more than the allowed number of files |
| SortedRuns.CountsHalfOpenIff | AegonKV/src/db_impl.cc:1037-1048 | Covering means the half-open key range, for every limit, if and only if no file has a single key |
| SortedRuns.SingleKeyCountsForEver | AegonKV/src/db_impl.cc:1050-1063 | A single-key file counts against a file far above it |
| Scheduling.SchedulerBehaves | AegonKV/src/db_impl_gc.cc:137-195 | Over every interleaving the queue is what is not yet running, bounds hold, a worker finds work, drops and jobs exclude each other, and no thread sleeps through what it waits for |
| GcRequests.FirstComeFirstServed | AegonKV/src/db_impl_gc.cc:137-262 | Over every run the families workers took, followed by the queue, are the families requested in order, with repeats granted by a rule computed from the steps, as are workers and jobs |
| Scheduling.CloseWaits | AegonKV/src/db_impl.cc:402-408 | A close is done exactly by a look that finds no worker scheduled |
| Scheduling.StepInv | AegonKV/src/db_impl.cc:501-523 | Every critical section keeps counters, exclusion and wake-ups |
| Scheduling.GCRunsAgainIff | AegonKV/src/db_impl.cc:501-523 | From any state some run gets a GC job going if and only if no drop has failed and a worker is scheduled, or GC is on, not shutting down and has room for one |
| Scheduling.FailedDropBlocksGC | AegonKV/src/db_impl.cc:512-523 | After a failed base drop no GC job ever runs again and scheduled workers never finish |
| Scheduling.DropCanFail | AegonKV/src/db_impl.cc:494-523 | Three steps from the start lead there |
| Scheduling.GcScheduler.MaybeScheduleGC | AegonKV/src/db_impl_gc.cc:137-150 | The loop schedules as many workers as there is work and room for |
| Scheduling.GcScheduler.BeginGC | AegonKV/src/db_impl_gc.cc:156-170 | A worker sleeps if a drop is requested, else takes the first of the queue, which is never empty |
| Scheduling.GcScheduler.EndGC | AegonKV/src/db_impl_gc.cc:180-190 | Counters, repeat of the family, new workers and signals as specified |
| Scheduling.GcScheduler.EndDrop | AegonKV/src/db_impl.cc:512-523 | The request is counted down, and sleepers woken, only if the base drop succeeded |
| AckCounter.AcknowledgedCounter.Acknowledge | Evaluation/core/acknowledged_counter_generator.cc:12-30 | For every value: it counts as the value of the window with its slot, which is itself inside the window; the exception means that was acknowledged before; Last is the greatest value with everything up to it acknowledged, exactly if the run is not a whole window |
| AckCounter.OneBehind | Evaluation/core/acknowledged_counter_generator.cc:12-30 | On a new counter, the values of the window after the first and then the first: all are acknowledged and Last is one short |

## Left out

- The hardware GC path, the driver and its buffers: their correctness rests on code that is not part of this model.
- RocksDB itself: the tree is a versioned map with a durable log and atomic writes; compaction drops only what no snapshot sees.
- Checksums, compression, dictionary training and meta index blocks are arbitrary functions with the laws of `BlobFile.Lawful`.
- I/O errors end a run; a blob file that reads with an error is not modelled.
- Purge reads the oldest snapshot and removes files in one step; the code holds two locks one after the other.
- The GC job is a step system on values and not a loop over mutable objects, because other threads step in between; update in place and aliasing are not captured there.
- `BlobFileSet` keeps its storages as values; `ApplyFamily` is the same on the storage object.
- `DropColumnFamilies` and range deletes are not steps of the GC protocol: they remove data on purpose.
- The size accounting of `DeleteFilesInRanges`, which its own comment calls inaccurate.
- Bitmaps across a restart: they are not persistent and start empty.
- User keys are ranks in the comparator's order where only the order matters; the smallest and largest key a file builder tracks are not modelled.
- Sorting is an ordered insertion or any ordered arrangement of its input.
- Discardable ratios are exact rationals; statistics, logs, prefetching and the blob cache have no model.
- TableBuilding.BuildTable: a record whose encoding does not fit 32 bits is excluded, as the code asserts; the resolved meaning and the bytes of an index are stated for files and numbers below 2 to the 64.
- Storage.BlobStorage.GetBlobFilesInRanges: a range whose walk runs past the end of the listing, which `Storage.WalkableIff` says exactly, has no defined result.
- RangeDeletes.DeleteBlobFilesInRanges: such a range is excluded here too.
- ManifestProofs.RestartRebuilds: an edit for a family that is not open that deletes a file twice or one never added, for which `ManifestProofs.ReplaysIff` shows the claim false, is excluded.
- AckCounter.AcknowledgedCounter.Acknowledge: numbers are unbounded, so a wrap at 2 to the 64 is captured only for the start at 0.
- TableBuilding.TitanTableBuilder.Add: the bytes of an internal key are not modelled, only whether they parse.
- GcExact.BitsExact: a crash, a job given up with rewrites left, a rewrite refused to a job without a bitmap, a build that places not all its records, and a reference taken away without a report all leave records whose bits stay clear; runs with them are excluded.
- GcReclaim.TreeCanBeCompacted: the drops are those of the base database's compaction, of which only what it may drop is modelled.
- BlobFormat.MetaRoundTrip: strings of 2 to the 32 bytes and more are excluded; the legacy form, whose entries and level are never set, decodes to zeros.
- LiveData.StepInv: the discardable-ratio test that marks a file for merge is an arbitrary flag.
