# Pluk: a verified model of the dataset store

Pluk keeps datasets as versions of virtual files. A file is an indexed list of links to
chunks, and chunks are shared between files, versions and datasets by their hash. This
project models the store, its readers and its clients, and proves what they promise:
that saving, cloning, deleting and collecting keep the tables consistent whatever the batches
and the interleavings, that what was stored reads back, and exactly when it does not.

`dafny verify dfyconfig.toml` checks everything.

## How it is organised

Three levels describe the store.

- `Snapshots.dfy` and `SaveTheory.dfy` speak of files, chunks and links by version, path and
  hash. `Saved` is the outcome of a save in closed form. A `Run` is any sequence of the locked
  database steps of the two goroutines; `EveryRunSaves` proves that all legal complete runs, with
  any batches and any order, end in `Saved`, and `OneByOneIsSaved` that saving file by file does.
- `TableRows.dfy` and `Stores.dfy` have the tables with their row ids and the calls on them as a
  class `Store`. `Abs` takes the tables to a snapshot, and every method is proved to do to the
  snapshot what the specification says. The batch loops, the deduplication of hashes, the
  re-sorting by key and the buffer of chunks to be deleted are there as loops.
- `SavePipeline.dfy`, `Clones.dfy` and `Collector.dfy` run the service's operations on the class. A
  pipeline of goroutines is a guarded loop that takes any enabled step; its contract thus holds
  for every interleaving. `Totals.dfy` has the cached totals, `Runs.dfy` the invariants over runs of
  all operations, `Push.dfy` the batches of the push client.
- `Effects.dfy` says of every operation, in files, links, chunk rows and version rows alone, what it
  leaves and what it does not touch.

Beside the store:

- `ChunkedFiles.dfy`: the cursor of (chunk, offset, open reader) that reads a list of chunks.
- `PathCodec.dfy`: the path of a chunk on disk, and the hash read off a path.
- `Options.dfy`: a value that may be missing.
- `Trees.dfy`, `Walks.dfy`, `Flattening.dfy`, `Tars.dfy`: the directory tree built from rows, looked
  up, walked, flattened again, archived, and its archive's length foretold.
- `PlukFiles.dfy`: parallel reads through one open handle of the FUSE file system.
- `Uploads.dfy`, `UploadReads.dfy`, `UploadRequests.dfy`: cutting bodies and files into chunks over
  sources that read short, what reads back, and the upload request as a whole.
- `PushRaces.dfy`: the goroutines of a push.
- `ClearChunks.dfy`: the sweep over the data directory.
- `EndToEnd.dfy`: save, join, tree, walk and flattening in one go.
- `RoundTrip.dfy`: from the bytes of an uploaded body through tables, tree and reader to bytes.

## What turned out

Exact conditions, each with a proof; where a case of failure is named, it is a lemma too.

- Replacing a file is exact if and only if the hashes it keeps keep their positions, because stale
  links are found by hash (`ReadsBackIffPositionsKept`, `MovedHashCounterexample`). An upload, which
  deletes the old file first, is always exact (`Runs.UploadReadsBack`).
- A file saved without a hash has a row and counts in the totals but never reads back
  (`EndToEnd.DescribedIffKept`).
- Cached totals stay right if and only if an operation is none of four writes: a save or a clone into
  a soft-deleted version whose old totals do not happen to fit, a clone onto itself of a version
  with files, and creating a live version with files, which is answered with a conflict and then
  goes on to reset the totals (`StepKeepsCounted`, over runs `RunsKeepCounted`).
- A clone gives the target the source's files and links if and only if the two are different
  versions or the source has no files (`CopyIffOther`); a clone onto itself empties the version
  (`CloneOntoItselfEmpties`).
- An upload reads back if and only if no full chunk of it equals its last chunk with zeros behind it,
  because the whole buffer is hashed (`UploadReads.UploadReadsBack`, `ZerosAreLost`). For the same
  reason it can cut chunks of other files short (`FileStays`, `EmptyUploadErasesZeros`).
- An upload whose body fails to read keeps the store if and only if there was no file to replace:
  the failed read returns no error, so the deletion is committed (`FailedUploadKeepsStore`).
- A file that is not saved comes back with its chunk sizes and layouts if and only if the save does
  not contradict the row of a chunk that they share (`EndToEnd.StoredIffNotContradicted`,
  `ContradictedCounterexample`).
- The bytes of an uploaded body come back through the tables, the tree and the reader under the
  same condition as from the chunks alone, unless files below its path make it a directory, which
  hides it (`RoundTrip.UploadThenRead`).
- Pushing in batches is pushing once if and only if there is one batch, or the version is not
  soft-deleted, or it had the totals of all batches together (`Push.BatchesAreOneSave`,
  `TwoRequestsCounterexample`).
- A save creates a version closed, and leaves any other as open as it was (`SavedVersionRow`). So the
  first request of a push, which is answered as open, leaves an open version if and only if there
  was one (`OpenOnlyIfItWas`); after the last one the version is committed, whatever it was
  (`PushIsOneSaveAndCommit`).
- Creating a version, or cloning into one, opens it if and only if it was not soft-deleted or was
  open when it was: a soft-deleted version comes back with the row it had, message and totals
  included (`CreatedVersion`, `ClonedVersionRow`).
- A push sends every chunk if and only if every goroutine acts on the answer to its own check
  (`SafeIffOwnAnswers`); the variable for the answer is shared, and two goroutines can lose a chunk
  (`SharedAnswerLosesChunk`).
- Parallel reads of one open file get their own bytes if and only if each is asked for them while it
  was the last to store (`SafeIffOwnStores`): the read is under a lock, but the answer goes through
  fields that all reads of the handle share (`OverlapGivesForeignBytes`).
- The archive is as long as foretold if and only if the name and size of every visible file fit a
  plain ustar header: an ASCII name of at most 100 characters, or one that splits at a slash into at
  most 155 and at most 100, and a size below 8^11 (`Tars.WriteTar`, `LongNameCounterexample`).
- The sweep of the data directory schedules a file if and only if it matches no chunk row and no
  later file of its batch has its hash (`ClearChunks.Sweep`); so no matching file goes, and all
  others go if and only if none of them is replaced like this (`SweptIsSafe`), as with distinct
  hashes (`DistinctHashesSuffice`) but not with a chunk that lies at two layouts' paths
  (`TwinIsSpared`). It panics if and only if the last batch is empty, with distinct hashes on every
  multiple of 500 files.
- A slave reads hashes off its master's paths if and only if both have the same data directory, apart
  from degenerate names (`PathCodec.ForeignDataDir`, `LongerDataDir`).

## Model

| member | source | states |
|---|---|---|
| Snapshots.CleanMeansExactlyLinked | pkg/datasets/utils.go:102-133 | with an empty delete buffer the chunk rows are exactly the linked hashes |
| Snapshots.FlushedConsistent | pkg/datasets/utils.go:68-133 | a flush of the delete buffer turns any consistent store into one where nothing waits and every chunk row is linked |
| SaveTheory.CheckStep | pkg/datasets/dataset.go:272-333 | checking the next file while others are being written keeps the save on course and never takes a link that the save itself has made |
| SaveTheory.FileStep | pkg/datasets/dataset.go:135-144 | writing any batch of checked files keeps the save on course |
| SaveTheory.ConnectStep | pkg/datasets/dataset.go:118-133 | flushing the delete buffer and then linking a batch of any size keeps the save on course, with no link to a missing row |
| SaveTheory.RunProgress | pkg/datasets/dataset.go:113-217 | every legal run, finished or not, keeps links within existing rows and chunk rows linked or waiting |
| SaveTheory.EveryRunSaves | pkg/datasets/dataset.go:113-217 | all complete runs of the two goroutines end in the same files, links and chunk rows, whatever the interleaving and the batches |
| SaveTheory.OneByOneIsSaved | pkg/datasets/dataset.go:49-111 | the naive save, one file at a time with its own flush, ends where every interleaved and batched save ends |
| SaveTheory.SavedIsClean | pkg/datasets/dataset.go:113-217 | after a save nothing waits and chunk rows are exactly the linked ones |
| SaveTheory.SavesCompose | pkg/datasets/dataset.go:49-111 | two saves in a row are one save of both lists when no path comes twice |
| SaveTheory.ReadsBackIffPositionsKept | pkg/datasets/dataset.go:295-333 | a saved file reads back as its submitted hash list, in every order the database may give ties, if and only if kept hashes kept their positions |
| SaveTheory.SaveLeavesOthers | pkg/datasets/dataset.go:49-111 | files outside the saved paths keep row and links, in this version and all others, and their chunk rows stay; such a row keeps size and layout if and only if the save does not mention the hash or its last mention says the same |
| SaveTheory.MovedHashCounterexample | pkg/datasets/dataset.go:303-319 | replacing [a, b] by [b] reads back as [b, b] |
| TableRows.Resort | pkg/db/files.go:143-155 | re-sorting found rows by key never indexes out of range if and only if no key was asked for twice, and then every key gets its own row |
| TableRows.UpsertFiles | pkg/db/files.go:80-101 | the upsert writes every size and keeps the id of every row that was there |
| TableRows.ListChunksByHash | pkg/db/chunks.go:83-114 | for distinct hashes the re-sorted rows come back in the order asked for |
| TableRows.Exclusives | pkg/db/chunks.go:117-142 | each distinct hash once, with its last mention, and all its places in the list |
| TableRows.UpsertChunks | pkg/db/chunks.go:143-187 | one row per distinct hash, old rows keep their ids, and new ids are new |
| TableRows.WriteBack | pkg/db/chunks.go:188-197 | every entry of the list gets the id of its own hash's row |
| TableRows.FlushedRows | pkg/datasets/utils.go:102-133 | what deleting by id leaves is what the snapshot's flush leaves, and links lose nothing |
| TableRows.DropScope | pkg/db/filechunks.go:171-207 | the two DELETE statements take exactly the links and the files of the scope |
| Stores.Store.CreateFiles | pkg/db/files.go:41-118 | fails exactly if a path comes twice; else every file has its row and gets its id back |
| Stores.Store.CreateChunks | pkg/db/chunks.go:117-197 | the snapshot's upsert by hash, ids kept, and each entry filled with its own chunk id |
| Stores.Store.CreateConnections | pkg/datasets/dataset.go:219-234 | the queued entries become exactly the links and chunk rows that the snapshot's Connect makes |
| Stores.OnePairDropped | pkg/db/filechunks.go:119-121 | deleting by file and chunk id takes the hash out of that file at every index, and no other link of any file |
| Stores.Store.GetRawFiles | pkg/db/filechunks.go:261-292 | the join of a scope, each link once, ordered by chunk index with ties in any order |
| Stores.Store.DeleteChunks | pkg/datasets/utils.go:102-133 | of one batch exactly the chunks without a link go |
| Stores.Store.TriggerDeleteChunks | pkg/datasets/utils.go:68-100 | whatever the batches of 250, the buffer is flushed as the snapshot says and left empty |
| Stores.Store.ClearExtraChunks | pkg/datasets/dataset.go:295-333 | exactly the links of the old file whose hash the new one does not list go, and their chunks are queued |
| Stores.Store.CheckFile | pkg/datasets/dataset.go:272-284 | the locked check of a file clears its stale links, and nothing if there is no such file |
| Stores.Store.DeleteFiles | pkg/datasets/utils.go:135-171 | files and links in scope go, unlinked chunks with them; a strict call without a chunk in scope fails |
| Stores.Store.ListRelatedChunks | pkg/db/filechunks.go:123-169 | exactly the links of the files of one version |
| Snapshots.TwoWritesSettle | pkg/datasets/dataset.go:236-270 | whatever the row was, two writes make it live with the totals sent and a third changes nothing; one write is enough exactly if it does not find the version soft-deleted with other totals |
| Collector.PurgeIsMinus | pkg/gc/gc.go:169-226 | purging the files and then deleting the rows leaves the store without that version or dataset and the chunk rows only it used |
| Totals.ComputeTotals | pkg/datasets/dataset.go:59-83 | the totals computed before the save are sum and count of the files after it |
| Totals.SumPut | pkg/datasets/dataset.go:59-79 | one more path adds its size to the sum and one to the count |
| Totals.SumOfOne | pkg/datasets/dataset.go:59-79 | the sum over one path is its size |
| Totals.TotalsAfterSave | pkg/datasets/dataset.go:236-270 | cached totals are right after a save exactly if the version was not soft-deleted or its old totals happen to fit |
| Totals.RecoveredTotalsCounterexample | pkg/datasets/dataset.go:245-255 | a save into a soft-deleted empty version leaves it reporting no files |
| SavePipeline.CheckNextFile | pkg/datasets/dataset.go:272-293 | the sender's step keeps the pipeline's invariant, whatever the receiver holds |
| SavePipeline.ReceiveFile | pkg/datasets/dataset.go:163-192 | a received file and its chunks enter the buffers in order |
| SavePipeline.WriteFileBatch | pkg/datasets/dataset.go:135-154 | the file batch is written and its queued chunks get the new ids |
| SavePipeline.HandOver | pkg/datasets/dataset.go:118-158 | handing one chunk over links a full buffer of 250 and loses nothing |
| SavePipeline.ForceFlush | pkg/datasets/dataset.go:199-214 | the forced flush links all that is left |
| SavePipeline.SaveFiles | pkg/datasets/dataset.go:96-217 | any schedule of sender and receiver with batches of 100 files and 250 chunks is a legal and complete run |
| SavePipeline.SaveFSToDB | pkg/datasets/dataset.go:49-111 | on the tables, a save ends in the closed form: links, chunk rows, delete buffer, totals and version row |
| Effects.SavedFiles | pkg/datasets/dataset.go:135-144 | after a save exactly the submitted files and those there before are there, with the sizes submitted, else with their old ones |
| Effects.SavedLinks | pkg/datasets/dataset.go:295-333 | a link is there exactly if the save lists its hash at its index, or it was there and its file is not submitted or still lists its hash |
| Effects.SavedChunks | pkg/db/chunks.go:117-187 | the chunk rows are those of the linked hashes; the last mention in the save decides size and layout, and a hash it does not mention keeps its row |
| Effects.SavedVersionRow | pkg/datasets/dataset.go:236-270 | a save leaves the version live, open exactly if it was there and open, with the message it had, and with its totals written unless it was soft-deleted; no other version and no dataset changes |
| Clones.CloneIsFaithful | pkg/datasets/dataset.go:556-713 | the target has the source's paths, sizes and index-to-chunk links and nothing else, and no chunk the source uses is lost or changed |
| Clones.CloneLeavesOthers | pkg/datasets/dataset.go:556-713 | source and all other versions keep their files and links |
| Clones.CloneOntoItselfEmpties | pkg/datasets/dataset.go:567-581 | a version cloned onto itself ends without files and with its old totals |
| Clones.CopyIffOther | pkg/datasets/dataset.go:556-713 | the target has exactly the source's files, sizes and links if and only if it is another version or the source has no files |
| Clones.PurgeKeeps | pkg/datasets/utils.go:135-171 | a deletion keeps every file outside its scope, and every chunk row that is still linked unchanged |
| Clones.GroupByFile | pkg/datasets/dataset.go:588-596 | the links of each file are found under its id, and no others |
| Clones.CopyInBatches | pkg/datasets/dataset.go:598-687 | whatever the interleaving and the batches of 100 and 250, all files and links have been copied |
| Clones.CloneVersionTo | pkg/datasets/dataset.go:556-713 | on the tables, a clone ends in the closed form; without a source row it fails and changes nothing |
| Effects.ClonedVersionRow | pkg/datasets/dataset.go:696-711 | a clone opens a new or live target, with the totals of the source and the message given; a soft-deleted target comes back with the row it had, committed if it was |
| Collector.CollectionIsSafeAndComplete | pkg/gc/gc.go:100-216 | live versions keep files, links and chunk rows even if shared with collected ones; nothing of the dead is left; chunk rows are exactly the linked ones |
| Collector.DeleteDatasetVersion | pkg/gc/gc.go:169-226 | one deletion takes exactly one version or dataset with the chunks only it used |
| Collector.GoGC | pkg/gc/gc.go:100-167 | both passes together leave exactly the collected store, in any order of rows |
| Effects.CollectedAt | pkg/gc/gc.go:100-216 | a version that is soft-deleted, or whose dataset is, loses row, files and links; any other keeps all of them with their chunk rows; datasets go exactly if marked |
| Effects.VersionDeletedAndCollected | pkg/datasets/dataset.go:515-540 | a version deleted and collected leaves nothing, and every other one that was not marked keeps all it had |
| Effects.DatasetDeletedAndCollected | pkg/datasets/manager.go:126-164 | the same for a dataset with all its versions |
| Effects.DeletingMarks | pkg/datasets/manager.go:126-148 | deleting a version or a dataset marks its version rows and changes nothing else |
| Effects.RegisteredDataset | pkg/datasets/manager.go:68-84 | registering a dataset makes it live and touches nothing else |
| Runs.UploadDatasetFile | pkg/api/files.go:189-232 | an upload deletes the old file first and saves the new one, on an editable version only |
| Runs.UploadReadsBack | pkg/api/files.go:275-287 | an uploaded file always reads back as uploaded |
| Effects.UploadedFile | pkg/api/files.go:189-287 | an upload into a live and open version leaves the file with its size and exactly the links of its hash list, and all other files as they were; into any other it changes nothing |
| Effects.UploadedRows | pkg/api/files.go:189-287 | after it the chunk rows are those of the linked hashes, the last mention decides, others are as they were; the version stays open with its message and right totals |
| Runs.DeleteDatasetFile | pkg/api/files.go:128-187 | matched files go with their chunks and the totals are recomputed; without a chunk in scope nothing changes |
| Effects.DeletedFiles | pkg/api/files.go:128-187 | in a live and open version with a chunk in a matched file, exactly the matched files go with all their links; other files, linked chunk rows and all other versions stay, and the totals are those of the files left; else nothing changes |
| Runs.UpdateDatasetVersionSize | pkg/db/dataset_versions.go:100-120 | size and count of the version become sum and count of its files |
| Effects.CreatedVersion | pkg/api/versions.go:102-124 | creating a version opens it with no totals if it is new or live; a soft-deleted one comes back with the row it had, committed if it was |
| Effects.CommittedVersion | pkg/db/dataset_versions.go:80-98 | a commit closes a live version and sets the message unless it is empty; it touches nothing else |
| Effects.CommitCloses | pkg/api/files.go:96-125 | after a commit uploads and deletions of files change nothing |
| Runs.CountedMeansTotalsRight | pkg/db/dataset_versions.go:100-120 | the totals kept by the invariant over runs are those that summing and counting the file rows gives |
| Runs.StepKeepsClean | pkg/datasets/utils.go:68-171 | no operation leaves a dangling link, an unlinked chunk row or a waiting chunk |
| Runs.RunsKeepClean | pkg/datasets/utils.go:68-171 | after every run of saves, uploads, deletions, clones and collections links refer to rows, chunk rows are exactly those of the linked hashes, and nothing waits |
| Runs.CloneCounted | pkg/datasets/dataset.go:696-711 | a clone keeps all totals right if and only if the target was not soft-deleted or its old totals are those of the source |
| Runs.SelfCloneCounted | pkg/datasets/dataset.go:567-581 | a clone onto itself keeps them right if and only if the version has no files |
| Runs.CreateCounted | pkg/api/versions.go:102-124 | creating a version keeps them right if and only if it was not live or has no files |
| Runs.SaveCounted | pkg/datasets/dataset.go:59-94 | a save keeps them right if and only if the version was not soft-deleted or its old totals are those sent |
| Runs.StepKeepsCounted | pkg/datasets/dataset.go:59-94 | every operation keeps all cached totals right if and only if it is none of these four writes |
| Runs.RunsKeepCounted | pkg/datasets/dataset.go:696-711 | over every run the cached totals are at all times what counting the files gives, if and only if every operation fits where it is applied |
| Runs.CloneIntoDeletedCounterexample | pkg/datasets/dataset.go:245-255 | a version with one file cloned into one soft-deleted when empty: the target reports no files |
| Runs.SelfCloneCounterexample | pkg/datasets/dataset.go:567-581 | a version with one file cloned onto itself: it still reports the file it has lost |
| Runs.CreateLiveCounterexample | pkg/api/versions.go:102-124 | a live version with one file created again: it reports none |
| Push.PushFiles | cmd/kdataset/push.go:238-287 | the requests carry the walked files in order, all but the last full and editing, the last committing |
| Push.RequestsCompose | pkg/datasets/dataset.go:49-94 | two save requests are one in files, links, chunks, totals and version row if and only if the version is not soft-deleted or had the totals of both together |
| Push.BatchesAreOneSave | cmd/kdataset/push.go:238-287 | folding the save over the batches gives what one save of the whole list gives, totals and version row included, if and only if there is one batch, or the version is not soft-deleted, or it had the totals of the whole list |
| Push.SecondRequestWritesTotals | pkg/datasets/dataset.go:245-265 | on a soft-deleted version one save leaves the old totals where two requests write them |
| Push.TwoRequestsCounterexample | cmd/kdataset/push.go:238-287 | two requests of one file each into a version soft-deleted when empty are not one request of both files |
| Effects.OpenOnlyIfItWas | pkg/api/fs.go:125-181 | a request served leaves the version open if and only if it asks to and the version was there and open, whatever the answer says |
| Effects.PushIsOneSaveAndCommit | cmd/kdataset/push.go:238-287 | the whole push, saves and commits included, leaves the version committed with the comment, and the store as one save and a commit would, if and only if it is one request, or the version is not soft-deleted, or it had the totals of the whole list |
| ChunkedFiles.ChunkReader.Read | pkg/io/reader.go:35-48 | copies what is left up to the room, end of file exactly if that is nothing |
| ChunkedFiles.ChunkedFile.Read | pkg/io/chunked_file.go:338-402 | fills the buffer with what a plain read of the concatenation would give, across empty chunks, end of file exactly if it could not; then it rewinds |
| ChunkedFiles.RestIs | pkg/io/chunked_file.go:338-402 | what is ahead is the chunk under the cursor from the cursor on and then all chunks behind it, up to one that cannot be opened |
| ChunkedFiles.ChunkedFile.Seek | pkg/io/chunked_file.go:414-453 | the cursor lands on the chunk and offset that hold the byte; at or past the recorded end it stays where it was |
| ChunkedFiles.ChunkedFile.SeekAndRead | pkg/io/chunked_file.go:404-412 | a positional read gives the bytes of the content from the offset on, whatever was read and sought before; outside the file it gives nothing and leaves buffer and cursor |
| ChunkedFiles.SizedIs | pkg/io/chunked_file.go:404-412 | positional reads are right for every file whose chunks can be opened at their sizes and add up to the file |
| ChunkedFiles.AheadAfterSeek | pkg/io/chunked_file.go:428-447 | what is ahead of the sought cursor is the rest of the content |
| ChunkedFiles.CopyAll | pkg/io/chunked_file.go:338-402 | reads to the end of file with any buffer size give the whole file |
| ChunkedFiles.ParallelReads | pkg/io/chunked_file.go:404-412 | parallel calls of SeekAndRead fill each caller's own buffer with the bytes it asked for, in any order of the lock |
| PlukFiles.PlukFile.ResultData | pkg/fuse/file.go:58-83 | one request alone leaves in the two fields of the handle exactly the bytes it asked for, and none for an offset outside the file |
| PlukFiles.FieldsHoldLast | pkg/fuse/file.go:73-91 | the shared fields hold the answer of the request that stored last |
| PlukFiles.SafeIffOwnStores | pkg/fuse/file.go:73-91 | parallel requests of one handle get their own size and bytes, for every file and all requests, if and only if each is asked while it was the last to store |
| PlukFiles.SerialIsOwn | pkg/fuse/file.go:73-91 | requests that come one after the other are safe |
| PlukFiles.OverlapGivesForeignBytes | pkg/fuse/file.go:73-91 | a request that is asked after another has stored is given the other one's bytes |
| PathCodec.PathRoundTrip | pkg/utils/utils.go:216-242 | hash and layout come back from the path if and only if the hash has no slash, for any data directory |
| PathCodec.PathsOfLayouts | pkg/utils/utils.go:216-228 | layout 2 makes two and layout 1 three directories of two characters, layout 0 one of eight, and the rest is the file name |
| PathCodec.PathsAreDistinct | pkg/utils/utils.go:216-228 | two chunks never share a path |
| PathCodec.ForeignDataDir | pkg/utils/utils.go:230-242 | layouts 1 and 2: hash and layout are read off a path made under another data directory if and only if it is the same one, or the path has none and this one is not at its front |
| PathCodec.ForeignDataDirOldLayout | pkg/utils/utils.go:230-242 | layout 0: exactly which other data directories still give hash and layout |
| PathCodec.LongerDataDir | pkg/utils/utils.go:230-242 | a path made under /data2 and read under /data gives every hash with a 2 in front |
| Trees.SplitJoin | pkg/io/chunked_file.go:69-71 | splitting a joined path gives its parts back |
| Trees.GetFS | pkg/db/filechunks.go:294-355 | the loop over the rows builds the tree that inserting them one after the other defines |
| Trees.InsertDirs | pkg/io/chunked_file.go:155-166 | a row adds the directories above its path, and no others |
| Trees.InsertFiles | pkg/db/filechunks.go:318-346 | a row appends its chunk to the file at its path and leaves all other files alone |
| Trees.Prepare | pkg/io/chunked_file.go:145-153 | every directory of the tree gets its object |
| Trees.GetDir | pkg/io/chunked_file.go:104-122 | the directory at a path, the tree itself for its own name, or nothing |
| Trees.GetFile | pkg/io/chunked_file.go:68-92 | for well-formed paths, what stands at the path, a directory hiding a file |
| Trees.TreeAgreesWithRows | pkg/db/filechunks.go:294-355 | on the prepared tree a path is a directory if and only if it is above some row's path, else a file with its rows' chunks in order if and only if some row has it, else nothing |
| Trees.AboveIsBeforeSlash | pkg/db/filechunks.go:347-351 | a path is above a row exactly if the path of the row goes on behind it with a slash |
| Walks.BuildIsRooted | pkg/db/filechunks.go:306-352 | in a built tree every directory's root is its path and every file has the name it is filed under |
| Walks.Walk | pkg/io/chunked_file.go:124-143 | every directory and file is visited exactly once under its path, in any order of the maps |
| Flattening.SaveFSLocally | pkg/datasets/dataset.go:412-435 | the list has each file of the tree once, under its path, with hashes read off the chunk paths |
| Flattening.HeldDirAt | pkg/io/chunked_file.go:124-143 | the directories that a walk visits are those found part by part |
| Flattening.FlattenInvertsBuild | pkg/datasets/dataset.go:412-435 | flattening a tree built from rows gives for each path its rows' hashes, sizes and layouts in order |
| Flattening.TreeHasRows | pkg/db/filechunks.go:318-346 | the file of the tree has a chunk for each row of its path, in order, with the size and layout of the row and the path that its layout gives its hash |
| Flattening.Replicate | pkg/datasets/dataset.go:398-439 | building, walking and flattening rows loses nothing, doubles nothing and reorders nothing within a file |
| Tars.TarSize | pkg/datasets/dataset.go:339-372 | the sum over all places of the tree of what they cost, and two end blocks, in any order of the maps |
| Tars.PaddedIs | pkg/datasets/dataset.go:364-366 | data is filled up to the next multiple of 512 and not beyond |
| Tars.CostIs | pkg/datasets/dataset.go:339-372 | a file costs 512 bytes and its data filled up, or nothing if its path begins with a dot |
| Tars.SizeOfOneFile | pkg/datasets/dataset.go:339-372 | a tree of one file has an archive of 1536 bytes and its data filled up, or of 1024 if the file is hidden |
| Tars.WriteTar | pkg/datasets/targz.go:13-68 | the archive holds exactly the visible files, whole, and is as long as TarSize says if and only if name and size of every visible file fit a plain ustar header, else longer |
| Tars.PiecesOnWire | pkg/datasets/targz.go:45-58 | header blocks of 512, data and filling are as long as they are, and the data is a member only if the header gives its length |
| Tars.LongestName | pkg/datasets/targz.go:45-58 | a name of n letters without a slash fits a plain header if and only if n is at most 100 |
| Tars.Limits | pkg/datasets/targz.go:45-58 | with one slash a name fits if it has at most 100 characters, or at most 155 before the slash and 1 to 100 behind it; the size is below 8589934592 |
| Tars.LongNameCounterexample | pkg/datasets/dataset.go:339-372 | a tree of one empty file with a name of 101 letters does not fit, so that its archive is longer than TarSize says |
| Tars.ArchiveIsWholeBlocks | pkg/datasets/dataset.go:339-372 | the size is a multiple of 512 |
| EndToEnd.DescribedIffKept | pkg/datasets/dataset.go:49-111 | size, hashes, chunk sizes and layouts of a saved file come back from the join if and only if it has a hash, kept positions, and no later mention of a hash disagrees |
| EndToEnd.StoredIffNotContradicted | pkg/datasets/dataset.go:49-111 | a file that is not saved comes back from the join as it was, sizes and layouts included, if and only if the save does not contradict the row of any chunk it links |
| EndToEnd.ContradictedCounterexample | pkg/db/chunks.go:143-187 | a save that gives a shared chunk another size changes it for the other file |
| EndToEnd.SaveThenReplicate | pkg/datasets/dataset.go:398-439 | saved, joined, built, walked and flattened, a saved file is in the list under exactly these conditions, and a file that was not saved if and only if none of its chunks is contradicted; for a fresh version the list is the saved files that have a hash |
| Uploads.PreciseReader.Read | pkg/utils/precise_reader.go:13-37 | fills the buffer or reads all there is and reports the end, whatever short reads the source makes |
| Uploads.CutIsWhole | pkg/api/files.go:289-331 | a body of length L gives L/C + 1 chunks, all full but the last, that concatenate to it |
| Uploads.PadIsZeroFilled | pkg/api/files.go:296-300 | the buffer of a chunk has the chunk in front and zeros behind it, up to the chunk size |
| Uploads.RecordedIs | pkg/api/files.go:296-326 | of each chunk the hash of its whole buffer is recorded, trailing zeros included, with the number of bytes read, at layout 2 |
| Uploads.ChunkStore.CheckAndSave | pkg/api/files.go:305-326 | a chunk that is there at its size is the same chunk, so skipping it and writing it are one |
| Uploads.ReadAndSaveFile | pkg/api/files.go:288-333 | the recorded file lists the cut body and the disk has each chunk put in turn; a failing body leaves the first of them, and an error only before any chunk when the look-up had failed |
| UploadReads.UploadReadsBack | pkg/api/files.go:296-326 | the recorded hashes read back as the body if and only if no full chunk is the last chunk with zeros behind it |
| UploadReads.PutAllHas | pkg/api/files.go:306-326 | the last chunk of those with one buffer lies, without the zeros, under the hash of the buffer cut after two and four characters |
| UploadReads.PutAllKeeps | pkg/api/files.go:306-326 | what lies under the path of no chunk of the upload is as it was |
| UploadReads.ZerosAreLost | pkg/api/files.go:306-306 | a body of one chunk of zeros does not read back |
| UploadReads.UploadAndReadBack | pkg/api/files.go:288-333 | upload and read to the end give the body under exactly that condition, for any buffer size |
| UploadReads.ChunkStays | pkg/api/files.go:306-326 | a stored chunk keeps its bytes if and only if the last uploaded chunk under its path, if any, has its length |
| UploadReads.FileStays | pkg/api/files.go:306-326 | a stored file keeps its chunks at their recorded sizes if and only if no upload clashes with one of them in length, and then reads as before |
| UploadReads.EmptyUploadErasesZeros | pkg/api/files.go:306-326 | uploading an empty file empties a stored file that is one chunk of zeros |
| UploadRequests.UploadBody | pkg/api/files.go:189-333 | the whole request: the old file goes, the body is cut and recorded, every cut chunk is put on disk in turn, the new file is saved; what is left in store and on disk and what is reported when the body fails to read |
| UploadRequests.FailedUploadKeepsStore | pkg/api/files.go:274-304 | a failed upload leaves the store as it was if and only if there was no file to replace |
| RoundTrip.UploadThenRead | pkg/api/files.go:189-333 | upload a body, join the rows, build and prepare the tree, look the path up and read the file there to its end: a directory is found if and only if some file already lay below the path, else a file, whose bytes are the body if and only if no full chunk is the last chunk with zeros behind it |
| RoundTrip.UploadInTree | pkg/db/filechunks.go:294-355 | the tree of the version has the uploaded file with its chunks in order at its path, unless some link of the version lies below the path |
| RoundTrip.UploadedInfo | pkg/db/chunks.go:143-187 | whichever chunk of the upload mentions a hash last, the chunk row has the upload's layout and a size that is not negative |
| Uploads.NextChunk | pkg/io/chunks.go:27-40 | one read's bytes, unpadded, or the end |
| Uploads.PushFile | cmd/kdataset/push.go:407-427 | the recorded chunks of a pushed file concatenate to it under any short reads, and each is kept under its hash |
| Uploads.RecordedExactlyIs | cmd/kdataset/push.go:407-427 | a pushed chunk is recorded with its own hash and length, at layout 2 |
| Uploads.PushReadsBack | cmd/kdataset/push.go:407-427 | so a pushed file reads back as it was |
| PushRaces.SafeIffOwnAnswers | cmd/kdataset/push.go:333-376 | a schedule of the goroutines sends every chunk, whatever the chunks and whatever is stored, if and only if each acts on the answer to its own check |
| PushRaces.SerialIsOwn | cmd/kdataset/push.go:328-342 | one goroutine at a time always acts on its own answer |
| PushRaces.SharedAnswerLosesChunk | cmd/kdataset/push.go:333-376 | with the shared answer two goroutines can leave a recorded chunk unsent |
| ClearChunks.CheckAndDelete | pkg/gc/gc.go:331-359 | of one batch exactly the files without a row of their size are scheduled |
| ClearChunks.Sweep | pkg/gc/gc.go:361-392 | across batches of 500 hashes exactly those files are scheduled that match no chunk row and that no later file of the same hash replaces in its batch, and it panics if and only if the last batch is empty |
| ClearChunks.BatchesOf500 | pkg/gc/gc.go:361-381 | a batch goes on until it has 500 different hashes |
| ClearChunks.GoesIffUnusedOrWrong | pkg/gc/gc.go:346-358 | a file goes if and only if there is no row of its hash or one of another size, and every later file of its hash is in a later batch |
| ClearChunks.WrongSizeGoes | pkg/gc/gc.go:346-358 | on the disk, a chunk file without a row of its hash and size goes unless a later file reads as the same hash |
| ClearChunks.SweptIsSafe | pkg/gc/gc.go:361-392 | no file that matches its chunk row is ever scheduled, and all others are if and only if none of them is replaced in its batch |
| ClearChunks.DistinctHashesSuffice | pkg/gc/gc.go:361-392 | with distinct hashes all unmatched files are scheduled, and the last batch is empty if and only if the number of files is a multiple of 500 |
| ClearChunks.TwinIsSpared | pkg/gc/gc.go:364-374 | of one chunk without a row at its layout-1 and its layout-2 path, the sweep schedules the second file and not the first |
| ClearChunks.SweepDataDir | pkg/gc/gc.go:361-392 | the same over files on disk with hashes read off their paths: the file of a chunk row, at its path and with its size, is never scheduled |

## Left out

- Effects.OpenOnlyIfItWas: a request from the save on; registering the dataset before it is `Effects.RegisteredDataset`, and reporting the new version afterwards is output.
- HTTP, gRPC, authentication, websockets, progress bars and logging: input and output.
- Masters and slaves: remote calls have effects that cannot be seen here; only the tree that a slave flattens is modelled.
- The MySQL branches: they drop the chunk index, so no order could be stated; the tables are those of sqlite and postgres.
- Errors of the database and rollback: operations succeed; where a caller rolls back on an error of its own (a strict deletion, a clone without source), the tables stay as they were.
- Removal of chunk files from disk: a queue worked off elsewhere; the garbage collector is proved at row level, and disk files come in with the sweep and the uploads.
- LIKE patterns and the empty-string filters of the database layer: a deletion by prefix is an arbitrary predicate on paths, the same for both statements.
- Ids of new rows: any id not in use, so that no proof can rely on the database's choice.
- Integer width: sizes and counts are unbounded integers; int64 overflow of sums is not modelled.
- The NULL that SQL gives for the sum over no rows: taken as 0.
- Modes, times and semantic versions: no property here depends on them.
- Duplicate paths in one save: required not to occur across batches; within one batch `Stores.Store.CreateFiles` says exactly when the code panics.
- Stores.Store.CreateChunks: the raw entries come back as a new list instead of being filled in place, as does the list of file ids of Stores.Store.CreateFiles.
- Trees: the tree is a value that grows by replacement, so sharing of subtrees and the in-place cursor of the loop are not modelled; `ReaddirFiles`, `Readdir` and `Clone` are left out.
- Walks.Walk: for trees whose paths are in their shortest form, where filepath.Join does not rewrite anything, and from a directory's own root, as all callers do.
- Tars.WriteTar: for files that read exactly as many bytes as they claim; what archive/tar does to others is not part of this model. Of its headers one fact is taken: one block exactly for what fits plain ustar, modes and times not considered.
- ChunkedFiles.ChunkedFile.Seek: only from the start of the file; a failing read of an open chunk and reads into an empty buffer are left out.
- UploadRequests.UploadBody: the panic that a nil file causes in the save is a reply of its own, and errors of the database do not occur.
- RoundTrip.UploadThenRead: for a version whose paths are in their shortest form and whose hashes fit their layouts, and a disk that has under a chunk's path that chunk, padded or not, which every upload keeps so.
- PlukFiles: when go-fuse asks for size and bytes is not part of this model, so they may be asked for at any time.
- Uploads.Source.Read: a source that returns nothing and no error, which Go discourages, is excluded; PreciseReader would not end on it and NextChunk would take it for the end.
- CalcHash: any injective function to slash-free hashes that are long enough to be cut up.
- SavePipeline.SaveFiles: one save at a time, as with sqlite, where the upload concurrency is 1 unless set otherwise and the database takes one writer; interleaving is that of the save's two goroutines. The save lock is taken by uploads only.
