# little-big-files: a verified model

little-big-files is an append-only, content-addressed blob store: framed records in segment files,
dedup by content hash with reference counts, asynchronous unpacking of large ZIP uploads, a
coordinator that rotates the one writing shard, and a rebuild of the metadata tables from sidecar
files. This project models those parts and proves what every run keeps, and, where the code does
not keep a promise, exactly when it does.

Verify everything with `dafny verify dfyconfig.toml`.

## How the model is built

| part | modules |
|---|---|
| record and footer formats, recovery scan | `Bytes`, `Record`, `Scan` |
| segment log with torn writes, failed fsyncs, crashes, recoveries | `SegmentLog` (steps), `SegmentRuns` (invariant and runs), `SegmentLoss` (which records are lost, exactly), `SegmentFaults` (how they are lost), `SegmentNames` (file names), `SegmentAcks` (when an append is acknowledged, what a read accepts), `SegmentManager` (the class) |
| `.idx` sidecars | `SegmentIndex` (bytes), `IndexReads` (what the reader accepts), `BlobIndex` (entries), `Sidecars` (from the bytes to the rebuilt tables) |
| write buffer | `WriteBuffer`, `BufferedLog` (over the segment log) |
| metadata tables and ingest transactions | `Metadata`, `FileKey`, `Ingestion`, `IngestEffects`, `Archive` |
| whole runs of uploads, clones, unpacks, propagations | `IngestRuns`, `CloneRuns`, `Mirror`, `MirrorRuns`, `Commits`, `UnpackLarge` |
| the ingest service as it runs, loops and rollbacks | `IngestService`, `IngestUploads`, `UploadOutcomes` (what an upload comes to) |
| unpack queue, and the ingest service running under it | `UnpackQueue`, `UnpackRuns`, `UnpackOutcomes` (when it gets done) |
| blob store, Bloom filter and hot index | `BlobStore`, `BlobOutcomes` (what a store comes to), `BlobStoreRuntime` (the class) |
| rebuild from sidecars and journal | `Rebuild`, `RebuildRuns`, `RebuildLive` |
| coordinator | `ShardTable`, `Coordinator`, `CoordinatorGuards`, `CoordinatorProgress` (that operations get done), `ShardGuard`, `GlobalId` |

Each operation is a function on values; the imperative classes and methods (`Manager`, `Index`,
`WriteBuffer`, `Repository`, `Blobs`, `Table`, `UnpackQueue`, `Guard`, the loops) are proved equal
to those functions, and the run theorems are about sequences of those functions in any order with
arbitrary failures. A file is its bytes plus the length of the prefix that survives a crash; a crash
replaces the rest by arbitrary bytes. Every transaction is one atomic step with rollback. Every
lock-released phase of the coordinator is a step of its own.

CRC32C, CRC-32 and SHA-256 are function parameters, so every result holds for any of them;
where content is identified by its hash the theorems speak of hashes. Zstd is a parameter with one
hypothesis (`BlobStore.Lossless`): decoding undoes encoding and frames start with the frame magic.

## Where code and promise differ

The code is modelled as it is. These promises do not hold as one would state them; the members
named give the failing case and the exact condition.

- *Acknowledged records survive a restart.* After a clean close the next session appends behind the
  footer and the recovery after that cuts what it wrote (`SegmentFaults.CleanCloseLosesNextSession`,
  `SegmentFaults.AcceptedFooterCuts`). Any 32 bytes with FOOT at 28..31 pass for a footer. An empty
  payload stops the scan (`SegmentFaults.EmptyPayloadStopsScan`) although empty ZIP members are stored.
  An acknowledged record becomes unreadable exactly when a recovery reopens its segment and its scan
  stops before the record's end (`SegmentLoss.UnreadableIffCut`, over runs
  `SegmentLoss.ReadableThroughoutIff`). That takes a weak place before the record - a footer accepted
  by an earlier recovery, or an empty payload (`SegmentLoss.OnlyWeakSegmentsLose`) - and happens to
  everything more than 32 bytes behind it unless the bytes at that place begin with a valid record
  (`SegmentLoss.CutBehindWeakPlace`); if they do, it depends on how the scan goes on
  (`SegmentFaults.BeginningRecordDoesNotDecide`). The next append takes the lost record's place
  (`SegmentFaults.LostPlaceIsReused`), and its row then reads another blob's bytes
  (`BlobStore.RowReadsWhatStandsThere`). The architecture document promises a cut at the last valid
  record only.
- *Every segment file is found again.* `segment_%04d` reads at most four digits, so segments from
  10000 on are written and never listed (`SegmentNames.FoundIffFourDigits`).
- *Sidecar appends only add.* A nonempty `.idx` file without a footer is overwritten from its start
  (`SegmentIndex.BareFileIsOverwritten`), and one that stops while stripping the footer shortens the
  list (`SegmentIndex.TornStripShortens`).
- *ref_count is the number of rows.* A store error inside the member callback becomes an unpack error
  and commits; a failed sidecar write then leaves a reference without a row
  (`IngestRuns.SwallowedErrorLeavesOrphan`). Otherwise the law is exact (`IngestRuns.ReferencesAreConserved`).
- *file_count is the number of rows.* Not when a member after the first fails
  (`Archive.FileCountIsRowCount`, `Archive.MidwayFailureMiscounts`); and a small ZIP that fails while
  unpacking gets an error row but no unpack_error (`Archive.SmallZipExactly`).
- *Every clone gets the unpacked content.* A clone waits, raw_large with the original only, from the
  moment its canonical is unpacked - or from its insertion, if the canonical was unpacked since it was
  read (`MirrorRuns.CloneMirrorsIffReadInTime`) - and it is filled exactly when a worker holding the
  canonical's token has listed it and runs its transaction (`UnpackRuns.FilledIffPropagated`). Two
  ways lead past that: the clone is inserted after the list was read (`UnpackRuns.LateCloneIsStranded`),
  or the unpack commits and its propagation fails or the process stops
  (`UnpackRuns.FailedPropagationStrandsClones`). The queue makes no second attempt then, since the
  canonical is no longer pending, so the clone waits for good (`UnpackRuns.StrandedForever`).
- *Row and hot-index entry agree.* Not when a rolled-back store's entry stays and the next store's
  sidecar write fails (`BlobStore.AgreementKeptIff`, `BlobStore.RolledBackEntryGoesStale`).
- *A sealed shard stays sealed.* It does under every step but one: CheckSeal's unlocked write, landing
  while nothing is active, makes it active again (`CoordinatorGuards.UnsealedOnlyByStaleWrite`,
  `CoordinatorGuards.SealedThroughoutIff`, `CoordinatorGuards.SealedShardBecomesActiveAgain`).
- *A sealed shard takes no packages.* Not one that restarts between its seal and the write of it
  (`CoordinatorGuards.RestartForgetsSeal`): a shard comes up read-only only if its row is sealed. A start
  keeps the promise exactly when no seal reply from that address is waiting to be written down, or
  the row is sealed already (`CoordinatorGuards.StartKeepsGuardedIff`).
- *Rebuild brings back the live tables.* A journaled package comes back as it is exactly when the line
  appended last was read after its last change (`RebuildLive.IntactIffLastLineCurrent`). Reading and
  appending are two steps, so an older line may win although a current one is in the journal
  (`RebuildLive.OlderLineWins`); and a clone filled by propagation comes back raw_large with its
  original only, because that loop journals nothing (`RebuildLive.FilledCloneComesBackEmpty`). And
  Rebuild need not get through: a clone journaled before its canonical stops it
  (`RebuildLive.OvertakingCloneStopsRebuild`); on runs that journal each new package at once it
  succeeds (`RebuildLive.SequentialRebuildSucceeds`).

## Model

| member | source | states |
|---|---|---|
| `Record.EncLayout` | internal/storage/record.go:65-81 | whatever follows it, an encoded record shows its magic, its length modulo 2^32, its payload and its checksum at their places |
| `Record.EncodeRecord` | internal/storage/record.go:65-72 | the buffer filled piece by piece is the framed record |
| `Record.EncodeFooter` | internal/storage/record.go:83-89 | the buffer filled piece by piece is the footer layout, reserved bytes zero |
| `Record.FooterRoundTrip` | internal/storage/record.go:83-102 | a written footer is accepted and read back, count and total, behind any data |
| `Record.AcceptedFooterFields` | internal/storage/record.go:91-102 | whatever passes for a footer is read as the count and total its first twelve bytes spell, the reserved bytes ignored |
| `Scan.HeadOfEnc` | internal/storage/segment.go:170-203 | the scan accepts a framed record in front of anything, except one with an empty payload |
| `Scan.EncOfHead` | internal/storage/segment.go:170-203 | what the scan accepts as a record is the encoding of a known-magic, nonempty record |
| `Scan.RecordsArePrefix` | internal/storage/segment.go:170-215 | the scanned records, serialized, are a prefix of the file, and no record starts behind them |
| `Scan.RecordsAreMaximal` | internal/storage/segment.go:170-215 | any valid records a file starts with are found, all of them, before anything else |
| `Scan.UniqueDecomposition` | internal/storage/segment.go:170-215 | the valid prefix splits into records in only one way |
| `Scan.ScanValidTail` | internal/storage/segment.go:170-215 | the streaming scan returns the maximal record prefix plus at most one footer, and the record count modulo 2^32 |
| `Scan.TruncateToValid` | internal/storage/segment.go:92-121 | the in-memory scan returns the same length and count, and that prefix of the data |
| `Scan.KeptMonotone` | internal/storage/segment.go:170-215 | growing a file never shortens the records the scan keeps |
| `Scan.FinalizedRescans` | internal/storage/segment.go:300-309 | records plus footer rescan to exactly those records and the footer, junk behind it or not, while their number is below the smallest record magic |
| `Scan.SizeLimitBoundsCount` | internal/storage/record.go:9-42 | thirteen bytes a record: below 13 * 0x45525231 bytes the count cannot reach a record magic |
| `SegmentLog.ReadsBack` | internal/storage/segment.go:348-388 | reading at the place of an encoded record gives that record, verified or not |
| `SegmentRuns.AcknowledgedRecordsSurvive` | internal/storage/segment.go:134-388 | in every run of appends, batches, closes, crashes and recoveries with any I/O failures, each record still acknowledged reads back unchanged, locations never overlap and only grow, and only a segment's first record may exceed the size limit with its footer |
| `SegmentLoss.UnreadableIffCut` | internal/storage/segment.go:134-215 | for every reachable state and step an acknowledged record is unreadable afterwards iff the step is a recovery that reopens its segment and whose scan stops before the record's end |
| `SegmentLoss.CutBehindWeakPlace` | internal/storage/segment.go:170-215 | behind a footer accepted earlier or an empty payload, the records cut are those ending behind the scan of the bytes from there on; if these begin with no valid record, everything more than 32 bytes behind |
| `SegmentLoss.OnlyWeakSegmentsLose` | internal/storage/segment.go:170-215 | a recovery cuts nothing before such a place and nothing in a segment without one |
| `SegmentLoss.ReadableThroughoutIff` | internal/storage/segment.go:134-388 | over every run a record is readable throughout iff no recovery of its segment stops its scan before the record's end |
| `SegmentLoss.WeakOnlyByEmptyOrFooter` | internal/storage/segment.go:183-212 | a segment gets such a place only by an empty payload written to it, or where its records end when a recovery accepts a footer behind them |
| `SegmentRuns.StepKeepsInv` | internal/storage/segment.go:217-309 | one step of any kind keeps every acknowledged record placed, inside the durable bytes and inside what a later scan keeps |
| `SegmentRuns.AppendKeepsLog` | internal/storage/segment.go:261-298 | an unsynced append, rotating or failing at any point, keeps what is acknowledged and adds at most its own record behind it |
| `SegmentRuns.BatchKeepsLog` | internal/storage/segment.go:235-259 | the writes of a batch, failing and rotating in any pattern, leave each written record either in a durable closed segment or in the active one |
| `SegmentRuns.SyncKeepsLog` | internal/storage/segment.go:248-258 | the one fsync at the end makes every record of the batch durable, also those in segments rotated out meanwhile |
| `SegmentRuns.RecoverStep` | internal/storage/segment.go:67-168 | every recovery, meeting a footer or not, keeps each record it does not cut placed, durable and, before a weak place, within reach of later scans, and counts exactly the records it kept in a segment without one |
| `SegmentRuns.CrashStep` | internal/storage/segment.go:134-168 | arbitrary bytes past the durable prefix, or the loss of a file with nothing durable, hurt no acknowledged record |
| `SegmentRuns.FinalizedSegment` | internal/storage/segment.go:300-309 | finalizing gives a file that rescans to exactly the records below the write position, with their count and length in its footer |
| `SegmentRuns.RunsFinalizeExactly` | internal/storage/segment.go:170-309 | the same in every state a clean run reaches, for segments below about 15.1e9 bytes |
| `SegmentFaults.AcceptedFooterCuts` | internal/storage/segment.go:205-212 | once a recovery accepted a footer, the next one cuts everything appended behind it, exactly when footer and appended bytes do not pass for a record |
| `SegmentFaults.WrittenFooterIsNoRecord` | internal/storage/segment.go:183-185 | a written footer whose count is no record magic never passes for a record |
| `SegmentFaults.EmptyPayloadStopsScan` | internal/storage/segment.go:183-185 | behind an empty-payload record a recovery keeps nothing but a chance footer lookalike |
| `SegmentFaults.CleanCloseLosesNextSession` | internal/storage/segment.go:159-168 | store, close, reopen, store, crash without losing a byte, reopen: the second record, acknowledged and readable before, is gone |
| `SegmentFaults.LostPlaceIsReused` | internal/storage/segment.go:159-168 | the next append takes the lost record's place and is what reading it returns |
| `SegmentFaults.BeginningRecordDoesNotDecide` | internal/storage/segment.go:176-212 | two records behind lookalike footers that begin with a valid record: one is cut, the other scanned to its end |
| `SegmentNames.FoundIffFourDigits` | internal/storage/segment.go:72-84 | scanning a segment's own file name gives its id below 10000 and fails from there on |
| `SegmentNames.NameOrderIsSegmentOrder` | internal/storage/segment_index.go:212-228 | below 10000 the sorted directory listing is in segment order |
| `SegmentManager.Manager.constructor` | internal/storage/segment.go:40-90 | reopens the highest segment whose name scans, or number 0; when every name does, in the state the recovery step describes |
| `SegmentManager.Manager.HighestSegment` | internal/storage/segment.go:72-85 | the listing loop returns the highest segment among the names that scan, or -1 |
| `SegmentManager.Manager.OpenSegmentFile` | internal/storage/segment.go:134-168 | scans an existing file and cuts it to its valid length; offset and count are what the scan found |
| `SegmentManager.Manager.OpenSegment` | internal/storage/segment.go:127-132 | a failed open still moves the active id and leaves no usable handle |
| `SegmentManager.Manager.FinalizeLocked` | internal/storage/segment.go:300-309 | footer behind the last record, then fsync; a torn footer or failed fsync is an error and leaves the position |
| `SegmentManager.Manager.RotateIfFull` | internal/storage/segment.go:262-271 | rotates exactly when a nonempty segment cannot take the record and a footer |
| `SegmentManager.Manager.AppendLocked` | internal/storage/segment.go:261-298 | in place, the append step the run theorems are about |
| `SegmentManager.Manager.BatchAppend` | internal/storage/segment.go:235-259 | in place, the batch step: own outcome per record, one fsync that fails them all or none; `SegmentAcks.BatchAckedIff` says which |
| `SegmentManager.Manager.ReadRecord` | internal/storage/segment.go:348-388 | reads header, payload and trailer piece by piece as the read function does, None for short files and checksum mismatch; `SegmentAcks.ReadsIffEncoded` says of exactly which bytes |
| `SegmentAcks.AppendAckedIff` | internal/storage/segment.go:261-298 | an append is acknowledged iff no I/O call it makes fails - footer, its fsync and the open only when the record and a footer no longer fit -, at the old write position or the front of the next segment, and the position moves on exactly then |
| `SegmentAcks.BatchAckedIff` | internal/storage/segment.go:235-259 | each write of a batch is acknowledged iff its own rotation, open and write and the final fsync succeed, at the position reached just before it, whatever becomes of the others |
| `SegmentAcks.ReadsIffEncoded` | internal/storage/segment.go:348-388 | a verified read returns a record iff the bytes there are exactly its encoding, so every other byte string is refused |
| `SegmentAcks.CorruptPayloadRefused` | internal/storage/segment.go:380-385 | a stored record whose payload was changed so that the checksum differs is refused |
| `SegmentAcks.UnverifiedReads` | internal/storage/segment.go:348-379 | without verification header and payload alone decide |
| `SegmentIndex.EntryRoundTrip` | internal/storage/segment_index.go:43-68 | an index entry survives its codec, field by field |
| `SegmentIndex.FooterRoundTrip` | internal/storage/segment_index.go:70-95 | an index footer is read back behind any data |
| `SegmentIndex.BareHasNoFooter` | internal/storage/segment_index.go:80-95 | bare entries pass for a footered file exactly when the last entry's DictID is the index magic and hash bytes 8..11 are the version |
| `SegmentIndex.ReadIndexFile` | internal/storage/segment_index.go:169-210 | reads entries with the footer's count and checksum enforced, as the read function states |
| `IndexReads.EntryInverse` | internal/storage/segment_index.go:43-68 | any sixty bytes are the encoding of the entry they decode to |
| `IndexReads.ReadsIffHolds` | internal/storage/segment_index.go:169-210 | the reader returns a list iff the file is exactly its entries, bare or before a footer whose count and checksum agree or are zero |
| `IndexReads.ChangedEntriesRefused` | internal/storage/segment_index.go:183-198 | entries changed under a footer with a nonzero checksum are refused |
| `SegmentIndex.DecodeEntries` | internal/storage/segment_index.go:195-209 | the decode loop gives all entries in order |
| `SegmentIndex.AppendViews` | internal/storage/segment_index.go:97-167 | between the writes of one append a reader sees the old list or the old list plus the new entry, and at the end the footer matches |
| `SegmentIndex.AppendsReadBack` | internal/storage/segment_index.go:97-210 | n appends from an absent file leave n entries and one matching footer, read back in order |
| `SegmentIndex.BareFileIsOverwritten` | internal/storage/segment_index.go:132-167 | appending to a nonempty file without footer gives the reader, without an error, the new entry for the first, a second whose first 32 bytes are the footer, and the rest unchanged |
| `SegmentIndex.Index.Append` | internal/storage/segment_index.go:97-167 | in place, what the file holds wherever the append stops - not opened, inside the truncating rewrite, stripped, torn entry, torn footer, no fsync, done - and no other file changes |
| `SegmentIndex.TornStripShortens` | internal/storage/segment_index.go:148-160 | stopped while stripping the footer after k entries, the file shows the first k and no error |
| `WriteBuffer.EveryWriteInOneBatchAnsweredOnce` | internal/storage/write_buffer.go:53-134 | in every interleaving of appends, flushes and panics the batches in cut order followed by the pending writes are the arrivals in order, bufSize is the pending bytes, nobody is answered twice, and when nothing is pending and every batch came back everybody was answered once |
| `WriteBuffer.StepKeepsInv` | internal/storage/write_buffer.go:53-128 | each append, cut and completion keeps that accounting |
| `WriteBuffer.EveryWaiterIsToldTheTruth` | internal/storage/write_buffer.go:94-128 | in every interleaving each answer is for a write whose batch came back, "durable" iff its flush did not panic and had no error for that write, and every write that came back has its answer |
| `WriteBuffer.CloseAnswersEverybody` | internal/storage/write_buffer.go:130-134 | after a last flush and the return of every flush under way, with any errors and panics, nothing is pending and every append has exactly one answer |
| `BufferedLog.ToldDurableIsDurable` | internal/storage/write_buffer.go:53-128 | buffer and segment log together, in every interleaving of appends, flushes, torn I/O and panics on a log with any history: a caller is told "durable" iff it got a location, and the log has acknowledged its own record there and reads it back; told of an error, it got none |
| `BufferedLog.FlushTellsIff` | internal/storage/segment.go:235-259 | a flush tells each waiter "durable" iff that record's own calls and the one fsync succeed, with the position reached just before, and an error otherwise |
| `BufferedLog.LoneAppend` | internal/storage/write_buffer.go:53-78 | an append alone goes from the call to a truthful answer: durable iff no I/O call fails |
| `BufferedLog.StepKeepsInv` | internal/storage/write_buffer.go:53-128 | each append, flush and panic keeps the joint invariant of buffer, log, answers and locations |
| `WriteBuffer.LateAppendIsNotAnswered` | internal/storage/write_buffer.go:53-92 | an append behind the last flush stays pending and unanswered for as long as no flush comes |
| `WriteBuffer.WriteBuffer.Add` | internal/storage/write_buffer.go:53-70 | the locked half of Append keeps the size sum and asks for a flush exactly at the limit |
| `WriteBuffer.WriteBuffer.TakeBatch` | internal/storage/write_buffer.go:94-103 | the locked half of Flush takes everything pending and resets the sum |
| `WriteBuffer.WriteBuffer.Deliver` | internal/storage/write_buffer.go:104-128 | one answer per write in order: durable exactly without a panic and without an error of its own |
| `Metadata.StoreBooks` | internal/metadata/repo.go:109-135 | insert-or-increment adds exactly one reference to one blob |
| `Metadata.FileBooks` | internal/metadata/repo.go:160-169 | a created row is either paid by a spare reference or leaves its blob due for one |
| `FileKey.KeyInjective` | internal/ingestion/unpack_large.go:233-243 | two rows share a key exactly when role, blob, name and sequence number agree, with a missing name read as empty |
| `Archive.UnpackExactly` | internal/ingestion/unpack_large.go:35-145 | unpacking commits exactly unless SQL fails or the error cannot be stored, and leaves the original, one numbered row per member up to the first failure, and an error row if one failed |
| `Archive.PersistExactly` | internal/ingestion/unpack_large.go:35-66 | the member loop's rows, file count and error text for every archive and every pattern of store failures |
| `Archive.FileCountIsRowCount` | internal/ingestion/unpack_large.go:56-65 | file_count equals the number of rows exactly when the whole archive was stored or its first member failed |
| `Archive.MidwayFailureMiscounts` | internal/ingestion/unpack_large.go:56-65 | one stored member and a broken second one: file_count 2, three rows |
| `Archive.SmallZipExactly` | internal/ingestion/package.go:250-308 | a small ZIP gets the same rows, but its columns are fixed beforehand: an error met while unpacking leaves no unpack_error |
| `Archive.RefusedZipExactly` | internal/ingestion/package.go:250-308 | a small ZIP that fails the checks is kept with its original, an error row and its message, and commits iff the error row can be stored |
| `IngestEffects.SmallZipEffect` | internal/ingestion/package.go:250-308 | a small ZIP ends as one new package, original row first, members numbered without clash, no other package touched |
| `IngestEffects.CloneEffect` | internal/ingestion/package.go:114-160 | a clone is one new package with the columns and rows read, pointing to its canonical; nothing else changes |
| `IngestEffects.UnpackEffect` | internal/ingestion/unpack_large.go:118-145 | an unpack changes one raw_large package, only its result columns and added rows |
| `IngestEffects.CopyEffect` | internal/ingestion/unpack_large.go:198-222 | with nothing present the copy loop takes every row once, in order; the keys never hide one |
| `IngestRuns.ReferencesAreConserved` | internal/ingestion/package.go:114-308 | in every run ref_count is at least the number of rows naming the blob, every named blob exists, and the counts are equal when no sidecar write failed after its reference was taken |
| `IngestRuns.StepBalances` | internal/ingestion/unpack_large.go:15-229 | each upload, clone, unpack and propagate transaction, committed or rolled back, keeps the books |
| `IngestRuns.SwallowedErrorLeavesOrphan` | internal/ingestion/unpack_large.go:37-63 | a member whose store fails after taking its reference still commits, one reference above its rows |
| `CloneRuns.CloneChainsHaveDepthOne` | internal/metadata/repo.go:203-214 | in every run each clone points to a non-clone with a smaller id and the same hash, and the lookup with and without the non-clone filter give the same id |
| `CloneRuns.LookupsAgree` | internal/testmetadata/memory.go:171-184 | lowest id over all packages of a hash is lowest id over its non-clones |
| `MirrorRuns.ClonesMirrorOrWait` | internal/ingestion/package.go:114-160 | in every run, each canonical read at any time before its clone is inserted, a clone shows exactly its canonical's columns and rows, or waits raw_large with the original only behind an unpacked canonical, never both |
| `MirrorRuns.CloneMirrorsIffReadInTime` | internal/ingestion/package.go:115-158 | in every run an inserted clone mirrors its canonical iff the canonical was not unpacked since it was read |
| `MirrorRuns.UnpackedForGood` | internal/ingestion/unpack_large.go:126-141 | once unpacked, a package and its rows never change again, whatever arrives or is retried |
| `Commits.CloneAlwaysCommits` | internal/ingestion/package.go:124-158 | a clone with a fresh id violates no key, however long ago its canonical was read |
| `Commits.PropagateAlwaysCommits` | internal/ingestion/unpack_large.go:198-222 | filling a clone that waits violates no key |
| `Mirror.SuccessfulPropagationMirrors` | internal/ingestion/unpack_large.go:164-231 | a propagation that reports success leaves every listed clone mirroring the canonical and changes nothing else |
| `Mirror.PropagateMirror` | internal/ingestion/unpack_large.go:198-229 | a second propagation racing with the first changes nothing |
| `MirrorRuns.LeavesPendingOnlyByUnpack` | internal/metadata/repo.go:278-281 | a canonical package leaves the pending list only by its own committed unpack |
| `UnpackRuns.ReachableIsRight` | internal/ingestion/unpack_worker.go:69-147 | in every run of requests, scans, workers and restarts clones mirror or wait, tickets fit their canonicals, references balance and each in-flight package has one token |
| `UnpackRuns.FilledIffPropagated` | internal/ingestion/unpack_large.go:164-231 | over every run of requests, scans, workers and restarts, a waiting clone ends up with its canonical's content iff a worker holding the canonical's token had listed it and ran its transaction, else it still waits |
| `UnpackRuns.StrandedForever` | internal/ingestion/unpack_worker.go:90-147 | a waiting clone whose canonical has no token and no enqueuer waits in every continuation |
| `UnpackRuns.FailedPropagationStrandsClones` | internal/ingestion/unpack_worker.go:98-109 | an unpack that commits and a propagation that then fails, or a restart, leave every earlier clone waiting in every continuation |
| `UnpackRuns.LateCloneIsStranded` | internal/ingestion/package.go:115-158 | a clone read before the unpack and inserted after the worker is done commits and waits in every continuation |
| `UnpackLarge.SuccessReachesEveryClone` | internal/ingestion/unpack_large.go:75-231 | UnpackLargePackage reporting success leaves the package holding its archive and every clone with the same mode, file count, error and rows |
| `UnpackLarge.RetriesConverge` | internal/ingestion/unpack_large.go:75-162 | after any number of calls that failed anywhere, with any store outcomes, the one that succeeds ends in the packages and rows that the one call whose unpack committed would have reached alone |
| `UnpackOutcomes.UnpackSucceedsIff` | internal/ingestion/unpack_large.go:75-231 | a call succeeds iff a package not yet unpacked can be read, stored and committed and every still empty clone's transaction is taken; no key and no missing blob can fail it |
| `UnpackOutcomes.DuePackageIsUnpacked` | internal/ingestion/unpack_worker.go:69-114 | a due package with room in the queue and nothing failing ends unpacked, all its clones show its content and no token is left |
| `UnpackOutcomes.LargeUploadIsUnpacked` | internal/ingestion/package.go:212-248 | an uploaded large ZIP is due and its way through the queue ends with the unpacked package |
| `UnpackOutcomes.PendingPackageIsRecovered` | internal/ingestion/unpack_worker.go:116-147 | whatever state a crash left, the next scan leads every package still raw_large to its unpacking |
| `IngestService.Repository.InsertBlobOrIncrement` | internal/testmetadata/memory.go:65-74 | in place, insert with the given row or add one reference |
| `IngestService.Repository.IncrementRefCounts` | internal/metadata/repo.go:124-144 | the loop adds one reference per listed hash, repeats counted, unknown hashes skipped |
| `IngestService.Repository.CreatePackage` | internal/metadata/repo.go:146-158 | in place, refused for a taken id or a missing canonical |
| `IngestService.Repository.CreatePackageFile` | internal/metadata/repo.go:160-169 | in place, refused exactly on a foreign-key or unique-index violation, found by a loop over the package's rows |
| `IngestService.Repository.UpdatePackageAfterUnpack` | internal/metadata/repo.go:192-201 | in place, writes the result columns of a raw_large package and reports whether it did |
| `IngestService.StoreMembers` | internal/ingestion/unpack_large.go:36-55 | the member loop equals the walk the archive theorems are about, stopping at the first error |
| `IngestService.UnpackTransaction` | internal/ingestion/unpack_large.go:120-145 | the transaction with rollback equals the unpack step |
| `IngestService.CloneTransaction` | internal/ingestion/package.go:124-158 | the row loop with rollback equals the clone step |
| `IngestService.PropagateTransaction` | internal/ingestion/unpack_large.go:198-222 | the copy loop with its key set and rollback equals the propagate step |
| `IngestService.PropagateToClones` | internal/ingestion/unpack_large.go:185-231 | the loop over clones equals the propagation the mirror theorems are about, stopping at the first failure |
| `IngestService.RunUnpackLargePackage` | internal/ingestion/unpack_large.go:75-162 | in place, the whole call the convergence theorem is about |
| `IngestUploads.IngestTransaction` | internal/ingestion/package.go:162-308 | one upload transaction by payload type and size, rolled back as a whole on any failure |
| `IngestUploads.StoreSmallZip` | internal/ingestion/package.go:250-308 | the transaction body with its checks beforehand equals the small-ZIP step |
| `IngestUploads.FindCanonicalPackageID` | internal/metadata/repo.go:203-214 | the loop finds the lowest id with this content, or none if there is none |
| `IngestUploads.ProcessPackage` | internal/ingestion/package.go:77-112 | rejects empty, oversized and unknown bodies without effect, clones the lowest package holding the content, else ingests |
| `UploadOutcomes.UploadExactly` | internal/ingestion/package.go:104-308 | an upload of new content commits iff what it must store can be stored, and leaves exactly one new package: XML single, a ZIP over the byte or entry limit raw_large with its original only, any other ZIP with members or its error row |
| `UploadOutcomes.KnownContentBecomesClone` | internal/ingestion/package.go:91-160 | content already present always commits as a clone of the lowest package holding it, with its columns and rows |
| `UnpackQueue.NeverUnpackedTwiceAtOnce` | internal/ingestion/unpack_worker.go:69-114 | in every interleaving an id is in flight iff exactly one token for it exists, so no package is unpacked or queued twice at once |
| `UnpackQueue.StepKeepsInv` | internal/ingestion/unpack_worker.go:69-114 | marking, sending or dropping, taking and finishing each keep one token per in-flight id |
| `UnpackQueue.UnpackQueue.Enqueue` | internal/ingestion/unpack_worker.go:69-88 | in place; the id ends in flight unless the channel is full |
| `UnpackQueue.UnpackQueue.RecoverPending` | internal/ingestion/unpack_worker.go:131-147 | every listed package ends in flight unless the channel is full |
| `BlobStore.BlobRoundTrip` | internal/storage/blob_store.go:34-44 | decoding an encoded record gives the data for every type and compression outcome; the payload never grows |
| `BlobStore.StoreOrRefEffect` | internal/storage/blob_store.go:48-134 | for every Bloom answer and hot-index content the call changes content_blobs exactly as insert with ref 1, else increment, or not at all, reports created iff the row was absent, and touches no other row or table; when it succeeds is in the next rows |
| `BlobOutcomes.PresentOutcome` | internal/storage/blob_store.go:48-80 | content that has a row: success is reported iff the statement, the append where the Bloom filter missed it and the Put where the entry was missing succeed; one reference is taken iff the first two do; never reported as new |
| `BlobOutcomes.AbsentOutcome` | internal/storage/blob_store.go:82-134 | content without a row: stored as new iff append, statements, .idx entry and Put all succeed, whatever Bloom filter and stale entry say; row, .idx entry and hot entry carry the place the log gave |
| `BlobOutcomes.SqlErrorIff` | internal/storage/blob_store.go:48-106 | the error that dooms the transaction is reported iff a statement was reached and failed |
| `BlobOutcomes.AppendAcks` | internal/storage/segment.go:217-229 | the append below a store is acknowledged iff the log runs and no I/O call fails |
| `BlobOutcomes.StoredTwice` | internal/storage/blob_store.go:48-134 | the same bytes stored twice: new, then known, one row with two references, one .idx entry |
| `BlobOutcomes.ShorterFormIsWritten` | internal/storage/blob_store.go:34-46 | eligible XML is written in the shorter form, everything else raw under its own magic |
| `BlobStore.CacheDoesNotMatter` | internal/dedup/index.go:21-37 | two successful calls that differ only in cache and Bloom answer leave the same tables and give the same result |
| `BlobStore.AgreementKeptIff` | internal/storage/blob_store.go:48-145 | a call keeps row and index entry at the same place, except exactly when a stale entry meets a new row whose sidecar write fails |
| `BlobStore.RolledBackEntryGoesStale` | internal/storage/blob_store.go:115-145 | a rolled-back store followed by a store whose Put fails leaves a row and an entry that disagree |
| `BlobStore.RowsAndIndexAgree` | internal/storage/blob_store.go:48-145 | from any hot-index content, in every run with rollbacks and restarts whose sidecar writes succeed, rows and entries agree |
| `BlobStore.RollbackKeepsAgreement` | internal/metadata/repo.go:66-76 | rolling the tables back keeps rows and entries in agreement |
| `BlobStore.RebuildFromPG` | internal/dedup/index.go:85-116 | the rebuild loop, even stopped half-way, leaves an index that agrees with the rows, and a finished one has exactly their hashes |
| `BlobStore.EveryRowReadsItsContent` | internal/storage/blob_store.go:147-159 | after every run of stores, rollbacks, rotations, closes, crashes and restarts a row's record stands or was cut off, and as long as it stands, reading the row gives bytes with its hash, of its size, framed in its stored size |
| `BlobStore.RowReadsWhatStandsThere` | internal/storage/blob_store.go:147-159 | a row is read as whatever acknowledged record stands at its place, its own or, after a cut, another's |
| `BlobStoreRuntime.Blobs.StoreOrRef` | internal/storage/blob_store.go:48-80 | in place, the store step the theorems are about |
| `BlobStoreRuntime.Blobs.StoreNew` | internal/storage/blob_store.go:82-134 | in place: append, insert or increment, sidecar entry, hot-index entry, in that order |
| `BlobIndex.LastEntryIsLiveLocation` | internal/storage/blob_store.go:107-127 | as long as sidecar writes succeed and no crash takes a file that has entries, whatever recoveries cut, over the sidecars in segment order the last entry of a live hash is where its row points |
| `BlobIndex.SegmentOrderIsTimeOrder` | internal/storage/segment_index.go:212-228 | reading the sidecars in segment order gives the entries in the order they were written |
| `Sidecars.SidecarsGiveTheIndex` | internal/storage/segment_index.go:97-228 | listing the directory by name and reading the bytes that the appends left gives exactly the entries in the order they were appended |
| `Rebuild.UpsertsAreLastEntries` | internal/metadata/repo.go:455-470 | the upserts leave exactly the indexed hashes, each at its last entry |
| `Rebuild.RebuildFrom` | internal/recovery/rebuild.go:52-99 | the nested loops over sidecars and journal equal the rebuild function, stopping at the first error |
| `Rebuild.RestoreJournalEntry` | internal/recovery/rebuild.go:104-147 | package first, then its files one by one, stopping at the first violated key |
| `Rebuild.ReplayRestores` | internal/recovery/rebuild.go:80-90 | after the replay each journaled package is as last written and the rows are exactly the journaled ones |
| `Rebuild.RebuiltBlob` | internal/metadata/repo.go:455-521 | whatever the journal holds, a rebuilt blob lies at its last entry with ref_count its restored rows |
| `Rebuild.RebuildSucceedsIffClosed` | internal/recovery/rebuild.go:80-90 | over rows that do not clash, Rebuild gets through exactly when every clone's canonical was journaled before it and every row's blob is indexed |
| `RebuildLive.SequentialRebuildSucceeds` | internal/recovery/rebuild.go:80-90 | on every run that journals each created package before anything else happens, Rebuild succeeds once the sidecars hold the live blobs |
| `RebuildLive.RebuildReproducesJournaled` | internal/recovery/rebuild.go:52-147 | on those runs every package comes back, with its live columns and rows iff the line appended last was read after its last change, else raw_large, with the rows of all its lines, and each ref_count is the restored row count |
| `RebuildLive.RebuildIsExact` | internal/recovery/rebuild.go:52-147 | when nothing changed since it was journaled, packages and rows come back exactly and each ref_count is the live number of rows |
| `RebuildLive.IntactIffLastLineCurrent` | internal/ingestion/package.go:62-71 | for every run, anything happening between reading a line and appending it, a journaled package comes back as it is iff the line appended last was read after its last change, else raw_large though unpacked |
| `RebuildLive.OlderLineWins` | internal/ingestion/package.go:244-247 | the upload reads its line, the worker unpacks, reads and appends, the upload appends: Rebuild gives raw_large columns and the unpacked rows |
| `RebuildLive.FilledCloneComesBackEmpty` | internal/ingestion/unpack_large.go:185-229 | a clone whose line was read while it was raw_large, with none since, comes back raw_large with its original row only, also when it has been filled |
| `RebuildLive.CloneJournaledFirstStopsRebuild` | internal/recovery/rebuild.go:80-90 | a clone journaled while its canonical is not makes Rebuild fail for good |
| `RebuildLive.OvertakingCloneStopsRebuild` | internal/ingestion/package.go:62-71 | a run that does so: an upload commits, a second upload of the body is cloned and journaled first |
| `RebuildRuns.LiveRebuildSucceedsIffClosed` | internal/recovery/rebuild.go:80-90 | on the journal of any run the two closure conditions are the only way to fail |
| `Sidecars.RebuildRestoresLocations` | internal/recovery/rebuild.go:52-99 | from the bytes of the sidecars, on such runs, Rebuild succeeds and each live blob comes back at its live location with its sizes |
| `RebuildRuns.RestoresLines` | internal/recovery/rebuild.go:80-147 | whenever Rebuild gets through, each journaled package comes back with the columns of the line appended last and the rows of all its lines |
| `ShardTable.PromoteKeepsKeys` | internal/coordinator/repo.go:240-304 | the promotion's own checks keep a single active row without help from the unique index |
| `ShardTable.RegisterKeepsKeys` | internal/coordinator/repo.go:313-376 | registration keeps ids, uuids and the single active row unique |
| `ShardTable.PromotedIff` | internal/coordinator/repo.go:240-304 | a promotion happens iff the target is a standby and the active rows are exactly the one sealed, or none; then the target alone is active, that row sealed with its size and time, all else unchanged |
| `ShardTable.SetStateExactly` | internal/coordinator/repo.go:227-232 | a state write is refused iff it would make a second row active, and writes just its row |
| `ShardTable.KnownRegisters` | internal/coordinator/repo.go:319-346 | a known uuid is found under the same id at the new url, its state untouched |
| `ShardTable.NewRegisters` | internal/coordinator/repo.go:348-376 | a new uuid is found under the highest id plus one, standby, at its url; refused iff the ids have run out |
| `ShardTable.SeedInserts` | internal/coordinator/repo.go:544-564 | a bootstrap entry with a new id is inserted as it is iff id, uuid and single active row allow it |
| `ShardTable.SeedFills` | internal/coordinator/repo.go:544-564 | one with a known id fills in a missing uuid and a blank url only, refused iff another row has the uuid |
| `ShardTable.Table.SetState` | internal/coordinator/repo.go:227-232 | in place, a state write that a key violation turns into an error without effect |
| `ShardTable.Table.Promote` | internal/coordinator/repo.go:240-304 | in place, seals the expected active row and activates the standby, or refuses; `ShardTable.PromotedIff` says when |
| `ShardTable.Table.Register` | internal/coordinator/repo.go:313-376 | in place, a known uuid keeps its id and gets the url, a new one gets the highest id plus one, always standby |
| `ShardTable.Table.SeedRow` | internal/coordinator/repo.go:544-564 | in place, inserts a row or fills in what it lacks, never its state |
| `Coordinator.RotationIsSafe` | internal/coordinator/registry.go:106-511 | over all interleavings and failures: never two active shards, none returns to standby or loses its uuid, promotions plus standbys left equal standbys ever entered |
| `Coordinator.StepKeeps` | internal/coordinator/registry.go:106-511 | each phase of each operation keeps that invariant and moves every row one way |
| `CoordinatorProgress.PromotionCommitsIff` | internal/coordinator/registry.go:206-234 | after any interleaving the commit of a promotion takes effect iff at that moment the target is a standby and active is exactly the shard that was sealed, or none |
| `CoordinatorProgress.EnsureCommitsIff` | internal/coordinator/registry.go:361-381 | the automatic activation commits iff nothing is active and the probed shard is still a standby; else it ends if something is active and goes on to the next standby if not |
| `CoordinatorProgress.RotationCommitsIff` | internal/coordinator/registry.go:394-472 | a rotation or confirmed promotion whose calls succeed, with any steps of others between its phases, takes over iff target and active shard are unchanged at its commit |
| `CoordinatorProgress.RotationGoesThrough` | internal/coordinator/registry.go:394-472 | it goes through against every interleaving in which no other seal or promotion commits: stale size writes, activations, registrations, restarts and bootstraps cannot stop it |
| `CoordinatorProgress.RotationAlone` | internal/coordinator/registry.go:394-472 | alone it changes those two rows and nothing else, and the old shard is read-only |
| `CoordinatorProgress.ActivationAlone` | internal/coordinator/registry.go:151-234 | a confirmed promotion with no shard active makes the reachable standby the active one |
| `CoordinatorProgress.EnsureActivatesFirstReachable` | internal/coordinator/registry.go:323-388 | with no active shard the first standby that answers becomes the active one; none does iff none answers |
| `CoordinatorProgress.SealAlone` | internal/coordinator/registry.go:106-150 | a manual seal seals its row with size and time, makes the shard read-only and changes nothing else |
| `CoordinatorProgress.CheckAlone` | internal/coordinator/registry.go:474-495 | a size check writes the fetched size and leaves the shard active |
| `CoordinatorProgress.KnownShardReturns` | internal/coordinator/registry.go:87-104 | a known shard returns under its id at its new address, read-only iff its row is sealed |
| `CoordinatorProgress.NewShardEnters` | internal/coordinator/registry.go:87-104 | a new shard enters as a standby, found by its uuid under the next id |
| `CoordinatorProgress.BootstrapEnters` | internal/coordinator/repo.go:510-564 | a bootstrap entry the keys allow is entered in its own state |
| `CoordinatorGuards.SealedMeansReadOnly` | internal/coordinator/registry.go:288-321 | in every run whose shards start only where that is safe and whose bootstrap seeds no sealed rows, every sealed row's shard is read-only already |
| `CoordinatorGuards.StartKeepsGuardedIff` | cmd/server/main.go:122-130 | a starting shard keeps that iff no operation is about to seal its row at another address and its row is sealed or no seal reply and no sealed row has its address |
| `CoordinatorGuards.RestartForgetsSeal` | cmd/server/main.go:122-130 | from every state with an active shard: the seal is replied, the shard restarts at its address, the seal is written: the row is sealed and the shard takes packages |
| `CoordinatorGuards.ActiveIsLostOnlyBySeal` | internal/coordinator/registry.go:123-228 | no phase of any rotation, failed or not, loses the active row; only an explicit seal does |
| `CoordinatorGuards.FailedRotationBlocksWrites` | internal/coordinator/registry.go:430-465 | a rotation that fails after the remote seal leaves the registry as it was with an active shard that refuses writes |
| `CoordinatorGuards.UnsealedOnlyByStaleWrite` | internal/coordinator/registry.go:106-511 | under every step of every operation a sealed row stays sealed, except exactly when CheckSeal's stale write lands on it while nothing is active |
| `CoordinatorGuards.SealedThroughoutIff` | internal/coordinator/registry.go:106-511 | over every run a sealed shard stays sealed throughout iff no such write lands on it |
| `CoordinatorGuards.StaleWriteReactivates` | internal/coordinator/registry.go:474-495 | that write makes the row active again exactly when it was sealed meanwhile and nothing else is active |
| `CoordinatorGuards.SealedShardBecomesActiveAgain` | internal/coordinator/registry.go:474-495 | such a run exists from every state with an active shard: sealed, then active again, its shard read-only |
| `CoordinatorGuards.GlobalIdsRouteForever` | internal/coordinator/registry.go:603-700 | a global id decodes to its row and local id iff the row's id is not negative, and in every later state the row exists and keeps its uuid to itself |
| `ShardGuard.Guard.Seal` | internal/api/shard.go:164-171 | only a primary takes the seal; it never lifts read-only |
| `ShardGuard.Guard.SetWriteBlockReason` | internal/api/shard.go:46-50 | stores the reason without surrounding white space; a blank one lifts the block |
| `ShardGuard.Post` | internal/api/shard.go:61-89 | a package POST passes iff there is no guard, or the shard is not read-only, no replica and has no write-block reason; insufficient storage is reported iff that reason is disk_full in any letter case |
| `GlobalId.DecodeOfEncode` | internal/globalid/id.go:8-18 | decoding gives back a pair exactly when the shard id is below 2^16 and the local id below 2^48, neither negative |
| `GlobalId.EncodeOfDecode` | internal/globalid/id.go:8-18 | every 64-bit id is the encoding of its two parts |

## Left out

- HTTP routing, JSON, headers and cluster-key checks; only whether a request is accepted is modelled.
- PostgreSQL, RocksDB, the Bloom library, Zstd, SHA-256 and CRC internals: maps, arbitrary answers and function parameters.
- ZIP parsing, payload detection and the size limits inside the ZIP walk: an archive is the sequence of members or errors the walk yields, and detection results are parameters.
- Dictionary training, the dictionary sidecar and a change of dictionary between sessions: the encoder is fixed for the life of a store.
- Clocks, tickers, contexts and cancellation: any step may or may not happen, in any order.
- The read-handle cache and TotalBytes of the segment manager, and shard-sync file copying.
- Directory fsync: a file without durable bytes may vanish in a crash.
- A torn last journal line and journal parse errors: the journal is the sequence of entries that were read.
- Concurrent transactions of several BlobStore users inside one shard: transactions are taken one after the other; GetPackage's two reads count as one.
- Registry.SealShard, Repository.PatchShardState, UpsertShard, ClonePackageRefs and the global XML index, which no live path calls.
- Unreachable and last-seen columns, replica urls and supplier statistics: no other column depends on them.
- The size limit at which CheckSeal asks for a rotation, or for a seal when no standby is left: both may start at any time.
- ResetIDSequences after a rebuild, and the dry-run mode of Rebuild.
- SegmentIndex.AppendViews: takes the truncating rewrite that strips the footer as one write, TornStripShortens shows a stop inside it; entries whose DictID and hash imitate a footer are excluded, as BareHasNoFooter shows they must be.
- SegmentRuns.AcknowledgedRecordsSurvive: asks of each recovery that every file name scans, that is, fewer than 10001 segments; SegmentNames shows what happens otherwise.
- SegmentManager.Manager.constructor: does not model a failing open, which leaves no manager at all.
- BlobStore.EveryRowReadsItsContent: payloads below 4 GiB, since the record's size field has 32 bits.
- BlobIndex.LastEntryIsLiveLocation: asks that no crash takes a file that has entries, which only one cut to nothing can suffer; its number would be used again.
- Sidecars.RebuildRestoresLocations: for segments below 10000, sidecar writes that succeed, crashes that take no file with entries, and entries that fit their fields and imitate no footer; the ingest run and the blob-store run below it are joined by their live blobs only.
- A shard configured read-only from its environment, which only adds to the read-only addresses.
- IngestUploads.ProcessPackage: takes its lookup and its clone transaction as one step; MirrorRuns and UnpackRuns have them apart.
- UnpackLarge.RetriesConverge: takes the clones as listed once; what becomes of clones that arrive between calls is in UnpackRuns.FilledIffPropagated and MirrorRuns.UnpackedForGood.
