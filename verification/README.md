# Verification of epochfill's backfill

epochfill backfills what one Solana wallet landed in one epoch: it downloads multi-gigabyte indexes in
parallel chunks, reads each block of interest out of a remote CAR archive with one ranged request, and
stores one row per transaction in SQLite, so that an interrupted run can be continued. This project models
that pipeline in Dafny and proves what it promises. `dafny verify dfyconfig.toml` checks everything.

| files | what they model |
|---|---|
| `Disk`, `Parts` | a file as a crash sees it; the chunk ledger (`backfill/parts.go`) as a class |
| `Download`, `DownloadSafety`, `DownloadProtocol`, `DownloadOutcome`, `DownloadDiscard`, `DownloadLiveness`, `DownloadVerdict`, `DownloadResume`, `DownloadProgress` | `DownloadResumable` and `runChunks` as a step machine of dispatcher, workers, flushes, cancellation, kills and crashes over any number of sessions, and what every run of it keeps, also where data files are deleted in between |
| `Car`, `Region`, `RegionProps`, `BlockReader` | the CAR walk, the one-pass region parser, and the proof that a one-range block read equals resolving every link through the whole archive |
| `Store`, `Pipeline`, `PipelinePool`, `PipelineStore`, `PipelineDiscovery`, `PipelineVerdict`, `PipelineReads` | the work list, bookkeeping and row tables as a class with transactions; `Run`, `discover` and `process` as a step machine with cancels, kills and reruns |
| `Sigs` | epoch arithmetic and cursor paging |
| `Strings`, `Tips`, `Wsol`, `Extract` | sorted joined strings and the classifier that splits them again; token, tip and wallet accounting in wrapping arithmetic; building a row |
| `Gsfa`, `Paths` | unpacking the address index behind a done marker; where an archive entry's name leads |
| `EndToEnd`, `SmallChain` | paging, block reads, rows and the pipeline joined: one row for each of the wallet's transactions; and a chain and a run for which all that it assumes holds |

## How it is modelled

A concurrent part of the program is a state machine: a step is one action of one goroutine, or the caller
cancelling, the process being killed, or the machine crashing. A theorem about a run quantifies over every
sequence of enabled steps (`Executes`), so over every interleaving and every number of restarts. A crash may
leave, of each file, a length between two lengths it has had since its last fsync, and at each byte any value
it has had there since; this covers losing any subset of unsynced writes and tearing the sidecar into an old,
new, mixed or shortened one. Parts of the program that change objects in place are classes (`Parts.PartsFile`,
`Store.EpochDB`) and loops are methods, proved against the functions that the machines use for the same
operations: `Download.FlushStepsAreFlush` connects the machine's three flush steps with the class's flush, and
the pipeline's transactions are the specifications of the `EpochDB` methods.

Fields documented as history (`log`, `found`, `written`, `counted`, `flushed` and their like) are read by no
guard; they record what happened so that a theorem can talk about it.

## What turned out differently from the comments

- `Stat` failing after the open skips the truncation (`backfill/oldfaithful.go:196-200`). The download then
  returns nil over a file that starts with the source but keeps an older, longer file's tail.
  `DownloadOutcome.DownloadCorrect` gives the exact condition, `StatFailureLeavesATail` the input.
- The sidecar is dropped whenever every chunk is recorded, also on an error return
  (`backfill/parts.go:111-126` says only once the download is verified complete). Safety is not affected;
  `DownloadOutcome.ErrorReturnDropsSidecar` is such a call.
- The discovered mark is read with every error taken for "not set" (`backfill/store.go:53-60`). Discovery then
  runs again under a mark that speaks of an earlier one, and if its slots are never seeded a later run returns
  nil without them: `PipelineDiscovery.MarkCanMissASlot`. `NilWithoutFailuresIsComplete` gives the exact
  condition, `MarkVouches` what holds while every read of the mark succeeds.
- `wsolProfit` conserves value exactly when the amounts it overwrites, for an account index listed twice among
  the wallet's pre balances, are zero (`Wsol.ConservesValue`, and `RepeatedIndexLosesValue` where they are
  not). A repeated index among the post balances does no harm.
- The done marker of the address index can vouch for files that are not there. `os.RemoveAll`
  (`backfill/gsfa.go:272-282`) may delete them in any order, and if it stops while the marker and an index
  directory are left and a file of the archive is not, the next run takes the rest for a full extraction. So it
  does when unpacking over an existing marker, after a failed `ReadDir`, stops in the same state. These stops
  are all there is to blame (`Gsfa.TrustedIff`, `BadStopIsAnswered`); a cleanup that runs to its end does no
  harm in whatever order it goes (`FinishedCleanup`).
- The program deletes the data files it is done with (`backfill/index.go:108-118`, `backfill/gsfa.go:91-93`),
  and nothing makes the unlinking of their sidecars durable first. A crash can bring back a full sidecar without
  its file, and the next call returns nil over zeros: `DownloadDiscard.DeletedFileIsBelieved`. `SureIffCareful`
  says exactly which deletions are safe; with no crash to come it is those that find no sidecar with a claim.
- In the epochs whose last slot is the largest uint64 the marker loop starts over at slot 0, and discovery
  returns nothing once one of the first 64 slots has a block: `Sigs.DiscoverSignatures`, `LastSlotIsLargest`.
- `safeJoin` has an error for names that would leave the destination; cleaned under a root first, no name does.
  It errs exactly when the destination is the root, the current directory or the empty string
  (`Paths.SafeJoinStaysBelow`).
- `walkSections` panics, rather than erring, exactly when it comes to a length whose section would end past the
  signed 64-bit range (`Car.WalkPanics`; `Car.PanicInput` has ten bytes that do).
- `ReadRange` takes a 200 answer for the range it asked for. Of a server that sends the whole object with it the
  bytes are right for every object exactly where the range starts at 0: `BlockReader.IgnoredRange`.
- `process` returns nil with failures (`PipelineDiscovery.NilWithAFailure`); `PipelineStore.NilMeansFailuresLeft`
  says what that leaves undone.

## Model

| member | source | states |
|---|---|---|
| `Parts.ResumeFetches` | backfill/parts.go:34-63 | a session fetches every chunk that a sidecar of the right length does not record, and every chunk when there is none of that length |
| `Parts.PendingIsExact` | backfill/parts.go:51-63 | the pending list names exactly the unrecorded chunks, ascending, none twice; it is empty just when all are recorded |
| `Parts.PartsFile.Open` | backfill/parts.go:31-49 | a sidecar is trusted only at the right length; one of another length is removed; which faults make it fail |
| `Parts.PartsFile.Pending` | backfill/parts.go:51-63 | the loop returns the pending list and changes nothing |
| `Parts.PartsFile.MarkDone` | backfill/parts.go:65-76 | records one chunk and counts it once; an index out of range or already recorded changes nothing |
| `Parts.PartsFile.FlushLocked` | backfill/parts.go:78-98 | data fsynced first, sidecar rewritten only after it succeeded; what each failing call leaves; `dirty` cleared only on success |
| `Parts.PartsFile.MaybeFlush` | backfill/parts.go:100-109 | flushes exactly from 16 unflushed chunks on |
| `Parts.PartsFile.Close` | backfill/parts.go:111-126 | keeps the sidecar while a chunk is missing; with none missing, and no error, there is none after |
| `Disk.UnsyncedMayBeLost` | backfill/parts.go:78-80 | what a crash may do: lose a write that was not synced, and a new file with it |
| `Disk.RewriteMayBeCut` | backfill/parts.go:93 | leave a rewritten file at any part of its new content |
| `Disk.RemovedMayComeBack` | backfill/parts.go:122 | and undo the unlinking of a file |
| `Download.PoolIsSized` | backfill/oldfaithful.go:224-230 | as many workers as configured, 16 by default, and no more than chunks to fetch |
| `Download.FlushStepsAreFlush` | backfill/parts.go:87-98 | the machine's fsync, open and write steps, run together, do to both files what `FlushLocked` does |
| `DownloadSafety.ChunksTile` | backfill/oldfaithful.go:247-256 | every byte of the object lies in exactly one chunk |
| `DownloadSafety.DurableSurvives` | backfill/parts.go:78-80 | a chunk that was fsynced survives every crash |
| `DownloadSafety.TornClaims` | backfill/parts.go:34-49 | whatever a crash makes of the sidecar, at the right length it claims only durable chunks |
| `DownloadSafety.FlushSideSafe` | backfill/parts.go:81-98 | the lock keeps the sidecar's bytes the ones the fsync covered |
| `DownloadSafety.WriteKeeps` | backfill/oldfaithful.go:256 | a chunk write, cut anywhere, spoils no chunk already there |
| `DownloadSafety.StepSafe` | backfill/oldfaithful.go:183-294 | every step of every goroutine, a kill or a crash keeps the safety invariant |
| `DownloadSafety.CrashSafety` | backfill/parts.go:78-98 | after a crash in any reachable state, a right-length sidecar claims only chunks whose source bytes are in the file, and the file has the object's size |
| `DownloadSafety.SidecarIsTrue` | backfill/parts.go:78-98 | in every reachable state, with no crash, what a right-length sidecar claims is in the file |
| `DownloadSafety.ResumeSkipsNoHole` | backfill/oldfaithful.go:183-202 | in every session of every run, a chunk left off the work list is in the file |
| `DownloadProtocol.CoverageMain` | backfill/oldfaithful.go:274-284 | the dispatcher, join and verdict keep every dispatched chunk recorded, held by a worker, or answered by a queued error |
| `DownloadProtocol.CoverageWorker` | backfill/oldfaithful.go:243-271 | so does every worker step |
| `DownloadProtocol.BlameWorker` | backfill/oldfaithful.go:251-266 | each failing worker queues its error before it cancels, so an internal cancel always has an error queued before it |
| `DownloadProtocol.QuietMeansDone` | backfill/oldfaithful.go:274-294 | no queued error and no cancel at the end means every chunk is recorded |
| `DownloadProtocol.RootCauseWins` | backfill/oldfaithful.go:243-294 | if the caller has not cancelled, the error returned is never one that the internal cancel induced |
| `DownloadOutcome.ChunksMakeTheSource` | backfill/oldfaithful.go:247-256 | a file holding every chunk starts with the whole object |
| `DownloadOutcome.DownloadCorrect` | backfill/oldfaithful.go:174-295 | a nil return, after any history, means the file is the object, if and only if it was no longer than the object once opened; and no crash undoes it |
| `DownloadOutcome.CallDelivers` | backfill/oldfaithful.go:174-216 | whatever happened before, a call that returns nil leaves the object if and only if Stat works when it opens the file, or the file it found was no longer |
| `DownloadOutcome.StatFailureLeavesATail` | backfill/oldfaithful.go:196-200 | a run where a failing Stat leaves an older tail |
| `DownloadOutcome.FullSidecarIsBelieved` | backfill/oldfaithful.go:183-213 | over a sidecar that is full already, nil for whatever the file holds once cut or extended to size |
| `DownloadOutcome.ErrorReturnDropsSidecar` | backfill/oldfaithful.go:183-200 | a call that fails drops a full sidecar all the same |
| `DownloadVerdict.VerdictIsRight` | backfill/oldfaithful.go:286-294 | over all runs: nil only with no error queued and no flush failed, and nil then unless the caller cancelled; else the first error queued, the cancel, or the final flush's error |
| `DownloadVerdict.CancelComesFirst` | backfill/oldfaithful.go:286-293 | a caller's cancel before the verdict is what is returned, unless the final flush fails |
| `DownloadVerdict.OneMoreAfterCancel` | backfill/oldfaithful.go:274-282 | once the context is cancelled at most one more chunk is handed out |
| `DownloadVerdict.FineDownloadReturnsNil` | backfill/oldfaithful.go:174-295 | a download that works returns nil: after any history, a call in which nothing goes wrong can go on to its return, and whichever way it does, it returns nil with the object in the file |
| `DownloadResume.NextSessionResumes` | backfill/parts.go:111-126 | over all runs: a session that ends with a chunk missing, or is killed, no flush having failed, leaves the next to start from exactly what it last flushed, which at its own end is all it recorded |
| `DownloadResume.CompleteStartsOver` | backfill/parts.go:111-126 | after a complete one the next starts from nothing |
| `DownloadDiscard.DiscardIff` | backfill/index.go:108-118 | deleting the data file keeps what sidecars say true if and only if none claims a chunk, nor can after a crash still to come |
| `DownloadDiscard.SureIffCareful` | backfill/index.go:108-118 | over any history of sessions, kills, crashes and deletions, what a sidecar says is always true, and stays so in each crash to come, if and only if every deletion is such a one |
| `DownloadDiscard.CarefulDelivers` | backfill/oldfaithful.go:174-295 | then no session leaves a hole and a nil return has the object, as without deletions |
| `DownloadDiscard.DeletedFileIsBelieved` | backfill/gsfa.go:91-93 | a history with a nil return, a deletion and a crash after which the next call returns nil over zeros |
| `DownloadLiveness.NoDeadlock` | backfill/oldfaithful.go:237-285 | in every reachable state some goroutine can step until the call returns, with nothing going wrong in that step |
| `DownloadLiveness.AnythingMayFail` | backfill/oldfaithful.go:251-266 | what the machine allows to fail: each request, each write at any byte, each part of a flush, and a cancel, a kill or a crash at any time |
| `DownloadLiveness.NobodyWaitsForever` | backfill/oldfaithful.go:237-285 | in every reachable state a failing worker can queue its error at once, and a dispatcher whose workers are all gone finds the context cancelled |
| `DownloadLiveness.RoomyWorker` | backfill/oldfaithful.go:238-266 | at most one error per worker is ever queued |
| `DownloadLiveness.EveryStepDescends` | backfill/oldfaithful.go:237-294 | every step of a call lowers a rank that stays non-negative: it ends |
| `DownloadProgress.BoundedUnflushed` | backfill/parts.go:67-109 | `dirty` counts exactly the chunks missing from the last flushed state, at most 15 plus the workers between marking and flushing while flushes succeed |
| `DownloadProgress.FlushOnlyWhenDue` | backfill/parts.go:100-109 | a worker flushes only with at least 16 chunks unflushed |
| `DownloadProgress.CapOnlyWhenDone` | backfill/oldfaithful.go:204-207 | the cap on the first count fires only when nothing is pending |
| `DownloadProgress.FirstCount` | backfill/oldfaithful.go:202-207 | the first count is the bytes of the recorded chunks, less than one chunk too many |
| `DownloadProgress.ProgressBracket` | backfill/oldfaithful.go:247-269 | each reported value lies within one chunk of the bytes counted, never above the total; the counter only grows; the last value is the total |
| `Car.Uvarint` | backfill/block.go:154-157 | a varint read takes at most 10 bytes, all inside the buffer |
| `Car.VarintRoundTrip` | backfill/block.go:154 | reading back a written length gives it and its own size, whatever follows |
| `Car.VarintCut` | backfill/block.go:154-157 | no proper prefix of a length reads as a length |
| `Car.VarintShortest` | backfill/block.go:154 | the writer's form is the shortest that reads so |
| `Car.WalkSections` | backfill/block.go:150-173 | the loop visits what the walk function says and ends as it says |
| `Car.SectionEndExact` | backfill/block.go:158-162 | the bounds check is exact if and only if the section's end fits a signed 64-bit int |
| `Car.TakePanics` | backfill/block.go:153-171 | one turn panics if and only if the length reads and the section would end past the signed 64-bit range |
| `Car.WalkPanics` | backfill/block.go:150-173 | the walk panics if and only if it comes to such a length |
| `Car.PanicInput` | backfill/block.go:150-173 | ten bytes that panic |
| `Car.TakeSound` | backfill/block.go:154-170 | one framed section is taken whole |
| `Car.TakeCut` | backfill/block.go:154-166 | a section cut in its length, CID or data is an error |
| `Car.WalkEncode` | backfill/block.go:150-173 | walking the encoding of a section list visits exactly that list, in order |
| `Car.WalkEncodeWalk` | backfill/block.go:150-173 | the other way round: what was walked, encoded again, walks to the same sections and nothing else |
| `Car.WalkThenEncode` | backfill/block.go:150-173 | and is never longer than the buffer it came from |
| `Car.WalkThenEncodeExact` | backfill/block.go:150-173 | it is as long exactly when it is that buffer, byte for byte |
| `Car.WalkTruncated` | backfill/block.go:150-173 | a prefix walks to the sections wholly inside it |
| `Car.TruncationDetected` | backfill/block.go:150-173 | a prefix walks to the end if and only if it ends at a section boundary, and errs otherwise |
| `Region.LeaderSelected` | backfill/block.go:258-287 | the selected leader is the first fee reward's, or the lone reward's |
| `Region.LeaderFromRewards` | backfill/block.go:262-287 | of rewards that decode the loop gives the first fee reward's pubkey, or the lone reward's; none for missing or undecodable ones |
| `Region.Assemble` | backfill/block.go:222-245 | count and transactions are collected through the block's own entries |
| `Region.ParseRegion` | backfill/block.go:180-246 | walk, callback and assembly in one pass, with each error case |
| `RegionProps.VisitsMatch` | backfill/block.go:180-217 | the callback's maps hold exactly the decodable nodes of each kind, and it errs exactly on an undecodable wanted block |
| `RegionProps.ParseIsNaive` | backfill/block.go:175-246 | one pass gives what looking up each link among the region's nodes gives |
| `RegionProps.OrderIndependent` | backfill/block.go:177-179 | permuting or repeating sections does not change the block |
| `RegionProps.NeighbourIndependent` | backfill/block.go:175-246 | sections of other blocks in front of the region do not change the block |
| `RegionProps.TxsAgainstCount` | backfill/block.go:229-245 | at most TxCount transactions, and all of them exactly when every referenced node is there and decodes |
| `BlockReader.Anchor` | backfill/block.go:123-139 | the nearest earlier slot within 200 whose block node resolves, or an error when there is none |
| `BlockReader.ReadRange` | backfill/oldfaithful.go:136-161 | exactly the bytes asked for, taken from the front of the body; an error exactly for no answer, another status or a short body |
| `BlockReader.IgnoredRange` | backfill/oldfaithful.go:154-160 | of a server that answers 206 with the range or 200 with the whole object, what is taken is right for every object if and only if the status is 206 or the range starts at 0 |
| `BlockReader.IgnoredRangeInput` | backfill/oldfaithful.go:154-160 | two bytes, of which the second is asked for and the first is taken |
| `BlockReader.ReadBlock` | backfill/block.go:85-121 | which region is read and parsed, and when it is an error |
| `BlockReader.RegionIsNaive` | backfill/block.go:175-246 | any run of whole blocks parses, for its last one, to the resolution through the whole archive |
| `BlockReader.ReadBlockRefines` | backfill/block.go:85-139 | ReadBlock returns exactly the link-by-link resolution of the slot's block, whichever earlier block it anchors on, or an error; when it is which |
| `BlockReader.ReadBlockLeader` | backfill/block.go:222-227 | the leader ReadBlock returns is that of the block's own rewards node, if that is in the archive and decodes, and none otherwise |
| `BlockReader.ReadBlockTxs` | backfill/block.go:229-238 | each transaction it returns is a transaction node of the archive, with its own metadata |
| `BlockReader.ReadableWhen` | backfill/block.go:85-139 | when a region is read: both indexes answer, the nearest of the 200 slots before that resolves, a region neither empty nor above 128 MiB, served in full |
| `BlockReader.RegionInArchive` | backfill/block.go:101-108 | with truthful indexes the region is never empty and never outside the archive |
| `Store.InsertKeeps` | landing/landing.go:157-166 | inserting rows changes none that is there and adds every new signature |
| `Store.InsertTakesFirst` | landing/landing.go:157-166 | of several new rows with one signature the first is kept |
| `Store.EpochDB.SetMeta` | backfill/store.go:53-68 | what is set reads back, the other keys read as before, and on an error nothing changes |
| `Store.EpochDB.SeedSlots` | backfill/store.go:70-100 | all slots come in, in batches of 500, or none, and which failures make it none; a slot already there keeps its flag |
| `Store.EpochDB.PendingSlots` | backfill/store.go:102-119 | exactly the slots not done, oldest first |
| `Store.EpochDB.WriteSlot` | backfill/store.go:127-146 | rows and done flag commit together or not at all |
| `Store.DistinctSlots` | backfill/run.go:156-169 | each slot once, in order of first appearance |
| `PipelinePool.KeptWorker` | backfill/run.go:189-208 | no worker step loses or doubles a slot |
| `PipelinePool.KeptMain` | backfill/run.go:210-237 | nor does the dispatcher, the closer or the writer |
| `PipelinePool.FinishedPool` | backfill/run.go:179-243 | at the end without a cancel, every slot was written or has failed, once, and the counters say so |
| `PipelinePool.PoolNoDeadlock` | backfill/run.go:189-237 | a pool that is not at its end can step |
| `PipelineStore.ExactlyOnce` | backfill/store.go:127-146 | over all runs, cancels and kills the done slots are the committed ones, each committed once |
| `PipelineStore.TableIsTheCommitted` | backfill/store.go:130-146 | the landing table is the rows committed for done slots, first of each signature, and nothing else |
| `PipelineStore.DistinctRowsAllThere` | landing/landing.go:157-166 | with distinct signatures every committed row is there unchanged: the table is their union |
| `PipelineStore.NothingReverts` | backfill/store.go:70-100 | no committed row changes, no done flag, slot or discovered mark goes away, over any run |
| `PipelineStore.EachSlotInOnePlace` | backfill/run.go:179-243 | in every reachable state each pending slot is in exactly one place, is dropped only after a cancel, and is undone in the table until written |
| `PipelineStore.NilMeansFailuresLeft` | backfill/run.go:189-243 | a nil return: written plus failed is the work list, and exactly as many slots as failed are left undone |
| `PipelineDiscovery.FoundIffSeeded` | backfill/run.go:110-125 | in every reachable state the last discovery is wholly in the work list if and only if it was seeded or brought nothing new; it is recorded only once it was seeded |
| `PipelineDiscovery.MarkVouches` | backfill/run.go:110-125 | while every read of the mark succeeds, a set mark means that the last discovery is wholly in the work list |
| `PipelineDiscovery.NilWithoutFailuresIsComplete` | backfill/run.go:50-125 | a nil return with no failures: the whole work list is done and committed, and so is the last discovery if and only if it was seeded or brought nothing new |
| `PipelineDiscovery.MarkCanMissASlot` | backfill/store.go:53-60 | a run where a failed read of the mark leads to a nil return without a slot that was found |
| `PipelineDiscovery.NilWithAFailure` | backfill/run.go:194-243 | a run that returns nil with its one slot failed and left to do |
| `PipelineVerdict.EndVerdict` | backfill/run.go:230-243 | in every reachable state a pool at its end returns the cancel if there was one, else nil, with the slots written and failed for its counters |
| `PipelineVerdict.CancelledIsNotNil` | backfill/run.go:243 | a run that is cancelled, before it starts reading or later, does not return nil |
| `PipelineVerdict.CancelDropsFew` | backfill/run.go:200-206 | over all runs a cancel throws away at most one block read per worker, and no more results wait than there are workers |
| `PipelineVerdict.FineRunFinishes` | backfill/run.go:48-243 | a backfill that works finishes: after any interrupted runs, one in which nothing goes wrong can go on to its return, and whichever way it does, returns nil with no failures and the whole work list done |
| `PipelineVerdict.PoolIsSized` | backfill/run.go:50-53 | as many readers as configured, 32 by default |
| `PipelineVerdict.AnythingMayFail` | backfill/run.go:189-237 | what the machine allows to fail: each read, each write, and a cancel or kill at any time |
| `PipelineReads.CompleteRun` | backfill/run.go:110-243 | when reads and discoveries are told, a complete run committed each slot found once, with rows read for it, and the table is of those rows |
| `PipelineStore.NoDeadlock` | backfill/run.go:189-237 | in every reachable state of the pool some goroutine can step without a cancel or a failure |
| `PipelineStore.EveryStepDescends` | backfill/run.go:189-237 | every step of the pool lowers a rank that stays non-negative |
| `Sigs.EpochHoldsItsSlots` | backfill/sigs.go:19-23 | while the epoch's slots fit 64 bits, its range is the slots that divide to it |
| `Sigs.NextEpochWraps` | backfill/sigs.go:19-23 | the very next epoch's range is empty |
| `Sigs.LastSlotIsLargest` | backfill/sigs.go:19-23 | an epoch ends at the largest uint64 if and only if 2^57 divides the epoch after it |
| `Sigs.MarkerLoopEnds` | backfill/sigs.go:97 | for every epoch the marker loop's bound is below the largest uint64, so its counter cannot run past it for ever |
| `Sigs.SeekMarker` | backfill/sigs.go:90-111 | the first signature of the first block with any in the 64 slots after the epoch, or none if there is none |
| `Sigs.Collect` | backfill/sigs.go:67-77 | one page adds what is wanted of it, and says if it went past the epoch's start |
| `Sigs.PageAdvances` | backfill/sigs.go:54-78 | each page moves the cursor to an older transaction and brings everything wanted up to it |
| `Sigs.Turn` | backfill/sigs.go:54-86 | so does each turn of the loop, and it stops only past the epoch's start |
| `Sigs.PageThrough` | backfill/sigs.go:49-88 | the loop ends, and with what is wanted before where it starts, what it returns is everything wanted |
| `Sigs.DiscoverSignatures` | backfill/sigs.go:25-88 | for every epoch, exactly the wallet's transactions in it, each once, newest first, with or without a marker and however pages are cut; nothing, for an epoch that ends at the largest uint64 with a marker found past it; an error only if a call fails |
| `EndToEnd.WantedMembers` | backfill/sigs.go:67-77 | what is wanted of a ledger: the wallet's transactions with a slot in the range, both ends included |
| `Strings.LessMeans` | backfill/extract.go:196 | strings are ordered by their first difference |
| `Strings.ListingUnique` | backfill/extract.go:193-198 | a set has one sorted listing |
| `Strings.SplitJoin` | landing/tips.go:110 | splitting undoes joining comma-free names |
| `Strings.OneString` | backfill/extract.go:177-198 | one string per set |
| `Strings.OneSet` | backfill/extract.go:177-198 | and one set per string, for non-empty comma-free names |
| `Strings.Sort` | backfill/extract.go:173 | the sorted listing of a list without repeats |
| `Strings.TrimSpaceMeans` | landing/tips.go:111 | trimming takes the white space at both ends and nothing else |
| `Tips.IsBareTipLeg` | landing/tips.go:106-118 | true exactly when a tip was paid and every part, trimmed, is empty, System or ComputeBudget |
| `Tips.SeesTheSet` | landing/tips.go:106-118 | on the listing of a set of comma-free names the classifier judges that set |
| `Tips.SeesTwoPrograms` | landing/tips.go:97-118 | for plain names: nothing but System and ComputeBudget |
| `Wsol.LamportsReadsDecimal` | backfill/extract.go:215-218 | every amount in range reads back as printed |
| `Wsol.LamportsSigns` | backfill/extract.go:215-218 | and with a sign |
| `Wsol.LamportsSaturates` | backfill/extract.go:215-218 | one out of range reads as the nearest in range |
| `Wsol.LamportsOfNoNumber` | backfill/extract.go:215-218 | a number with anything else behind it reads as 0, and so does nothing |
| `Wsol.OneMoreBalance` | backfill/extract.go:119-131 | one balance more counts exactly when it is wrapped SOL and the wallet's |
| `Wsol.LastIsKept` | backfill/extract.go:118-123 | for each account the last amount among those is kept |
| `Wsol.ProfitIgnoresOthers` | backfill/extract.go:114-137 | balances in other mints or of other owners change nothing, wherever they stand in either list |
| `Wsol.MapSumWithout` | backfill/extract.go:133-135 | the sum over the map does not depend on the order of iteration |
| `Wsol.MapHoldsTheRest` | backfill/extract.go:118-123 | the map holds the wallet's pre balances less what was overwritten |
| `Wsol.WsolProfit` | backfill/extract.go:114-137 | post less pre plus what was overwritten, modulo 64 bits, for all inputs and any map order |
| `Wsol.ConservesInRange` | backfill/extract.go:114-137 | for any change that fits, that is post less pre if and only if the overwritten amounts come to nothing in 64 bits |
| `Wsol.ConservesValue` | backfill/extract.go:114-137 | for amounts of tokens that exist, post less pre, for opened, kept and closed accounts, if and only if the overwritten amounts are zero |
| `Wsol.UniqueConserves` | backfill/extract.go:114-137 | so it is when no account index comes twice among the wallet's pre balances |
| `Wsol.RepeatedIndexLosesValue` | backfill/extract.go:117-137 | an input on which it is not |
| `Extract.ProgramSet` | backfill/extract.go:177-199 | the one listing of the invoked in-range programs, whatever the order of instructions and of map iteration |
| `Extract.KeyPositions` | backfill/extract.go:201-213 | which account stands where: the static ones, then the loaded writable, then the loaded readonly |
| `Extract.ProgramsInvoked` | backfill/extract.go:177-199 | a program is in the set exactly when an instruction, top-level or inner, has its index |
| `Extract.LoadedProgramIsSeen` | backfill/extract.go:177-213 | a program loaded from an address table is in the row under its own name |
| `Extract.OneMoreAccount` | backfill/extract.go:150-175 | one account more pays a tip, under its lane, exactly when it is a tip account that gained |
| `Extract.UncoveredAccount` | backfill/extract.go:150-175 | and none when a balance list does not reach it |
| `Extract.LoadedTipIsSeen` | backfill/extract.go:150-213 | a tip to an account loaded for writing is in the row, read at its place in the balance lists, with its lane |
| `Extract.TipPaid` | backfill/extract.go:150-175 | the sum of positive deltas at tip accounts covered by both lists, and the listing of their lanes |
| `Extract.LaneIffTip` | backfill/extract.go:155-175 | the lane string is empty if and only if no tip was paid |
| `Extract.WalletDelta` | backfill/extract.go:139-148 | post less pre at the wallet's first position, zero if that is not covered |
| `Extract.ApplyPosition` | backfill/extract.go:94-112 | count and percentage are set together, exactly when index and count are known, and agree |
| `Extract.BuildLanding` | backfill/extract.go:40-92 | when a transaction makes a row, exactly which error it is otherwise, first check first, and what each column has to do with the transaction |
| `Extract.TipLegMeans` | backfill/extract.go:86-89 | a row is a tip leg if and only if it has a tip lane and invoked nothing but System and ComputeBudget |
| `Extract.ChosenInOrder` | backfill/run.go:245-260 | the transactions that make rows keep their order |
| `Extract.Collect` | backfill/run.go:245-260 | one row for each transaction of the block that touches the wallet, in order, and no other |
| `Paths.CleanOneMore` | backfill/gsfa.go:165-167 | cleaning drops empty parts and ".", keeps plain ones, and takes one back for ".." |
| `Paths.CleanUp` | backfill/gsfa.go:165-167 | with nothing to take back ".." stays at the root and is kept elsewhere |
| `Paths.EntryIsPlain` | backfill/gsfa.go:165-167 | no part of a cleaned entry name steps back or holds a separator |
| `Paths.SafeJoinStaysBelow` | backfill/gsfa.go:165-173 | where each name leads for each destination: below it by the name's own parts; and exactly when the check refuses |
| `Gsfa.TrustedStep` | backfill/gsfa.go:59-163 | one step leaves findIndexDir without a wrong answer if and only if it is not a stop of unpacking or cleanup with marker and index directory there and a file of the archive not |
| `Gsfa.TrustedIff` | backfill/gsfa.go:59-163 | over any reruns, cleanups and kills, findIndexDir never finds a partial extraction when it may be asked, if and only if there is no such stop |
| `Gsfa.ReadyIsComplete` | backfill/gsfa.go:59-118 | without such a stop, success means a fully unpacked directory |
| `Gsfa.UnpackedIsFound` | backfill/gsfa.go:94-118 | an archive with an index directory in it is found once unpacked, and ensureExtracted succeeds |
| `Gsfa.BadStopIsAnswered` | backfill/gsfa.go:61-118 | and after one the very next run succeeds over a partial directory |
| `Gsfa.HonestStep` | backfill/gsfa.go:122-163 | which single steps put a marker that is there ahead of the files, if only until a stop |
| `Gsfa.MarkerHonestIff` | backfill/gsfa.go:122-163 | over any run the marker is never ahead of the files, at rest or not, if and only if there is no such step |
| `Gsfa.InterruptedCleanup` | backfill/gsfa.go:272-282 | from any success, a cleanup killed after its first file is a bad stop and leads the next run to a partial directory |
| `Gsfa.InterruptedUnpack` | backfill/gsfa.go:61-118 | so is unpacking over a success, after a directory read that failed, killed after truncating its first file |
| `Gsfa.HazardsFromNothing` | backfill/gsfa.go:59-163 | runs of both kinds from an empty directory |
| `Gsfa.FinishedCleanup` | backfill/gsfa.go:272-282 | a cleanup that gets as far as the marker is no bad stop, though a file of the archive went before it |
| `EndToEnd.ReadIsTheBlock` | backfill/run.go:193-202 | a worker's rows for a slot are one for each of the wallet's transactions that resolving the slot's block through the archive gives |
| `EndToEnd.RowTellsTheBlock` | backfill/run.go:245-260 | slot, leader and transaction count in a row are those of the block that was read |
| `EndToEnd.ReadSlot` | backfill/run.go:193-202 | the body of the worker loop gives such rows |
| `EndToEnd.DiscoverSlots` | backfill/run.go:145-169 | discovery by paging gives exactly the slots of the wallet's transactions in the epoch |
| `EndToEnd.OneRowPerTransaction` | backfill/run.go:48-243 | over all runs, cancels and kills: a nil return with no failures leaves exactly one row for each of the wallet's transactions of the epoch, and it comes of reading the block of the slot that the ledger gives for that transaction |
| `PipelineReads.OneSlotRun` | backfill/run.go:48-243 | a run in which a slot is found, read and committed |
| `SmallChain.SomeRunQualifies` | backfill/run.go:48-243 | all that the theorem before assumes holds of a chain with a transaction to find and of a run over it |

## Left out

- DownloadSafety.CrashSafety: assumes a successful fsync makes every earlier write and the file's directory
  entry durable, even after an earlier failed fsync, and that the object does not change between sessions; a
  sidecar of another object with the same number of chunks is trusted by the code and excluded from the start
  (`Fresh`). The size half of the claim is for environments where Stat on an open file does not fail. Its runs
  have no deletion of the data file in them: those are in `DownloadDiscard`.
- DownloadOutcome.DownloadCorrect: the same.
- DownloadLiveness.NoDeadlock: like the other results on liveness, progress, verdicts and resuming, about runs
  without deletions.
- DownloadProgress.BoundedUnflushed: counts what is missing from the last flushed state; a torn sidecar write
  has the wrong length and loses all recorded progress, so there is no bound on what a crash costs.
- DownloadProgress.ProgressBracket: speaks of the values computed; two callbacks may arrive out of order.
- BlockReader.ReadBlockRefines: assumes a server that honours ranges, index answers that are right where there
  are any (for an earlier slot, any earlier block's node), that a block's nodes lie in its own group, that equal
  CIDs name equal bytes, and that offsets and TxCount fit 64 bits. The epoch's first block has no earlier block
  node and is an error, as in the code.
- Sigs.DiscoverSignatures: speaks of the provider's ledger as it keeps it; a provider that has dropped old
  history, or answers an empty page before the end, is outside it.
- Extract.LaneIffTip: speaks of the mathematical sum of tips, which the tip column equals below 2^64.
- Extract.BuildLanding: takes a decoded transaction; the percentage is a real number, not a float.
- Gsfa.TrustedIff: process kills only, since neither marker nor files are fsynced; file modes and failing
  directory creation are covered as errors.
- Gsfa.MarkerHonestIff: the same, and archives without a file of the marker's own name.
- EndToEnd.OneRowPerTransaction: assumes that ledger and archive tell of the same transactions of the wallet,
  each whole in its block, and slots of the signed 64-bit column; it is about discovery by paging, since what
  the address index answers is not modelled.
- Strings.Sort: an insertion sort in place of the library's, with the same result.
- Wsol.WsolProfit: each of its three loops is a method of its own.
- Paths.SafeJoinStaysBelow: Unix paths; symbolic links already in the destination are not modelled.
- HTTP, TLS, HEAD requests, URLs, retries and timeouts.
- Third-party decoders, zstd, base58, protobuf and dag-cbor: abstract partial functions.
- SQLite itself, its schema and migrations; a commit that reports an error is taken not to have happened, and
  two processes on one database are not modelled. Slots are those of the signed 64-bit column.
- The mutex of the ledger is in the download machine and not in the class.
- Opening the database, the CAR's root CID and the slot and CID indexes: they only add ways for a run to fail
  before its pool starts.
- When the downloaded indexes are deleted; `DownloadDiscard` has it happen at any time between two calls.
- Progress display, unpack timing, throughput, logging, flags and signal handling.
- The literal tip account addresses: any map from account to lane.
