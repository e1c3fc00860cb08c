# Verified model of the Gathra gateway's store-and-forward pipeline

The gateway hears readings over LoRa, commits each one to a bounded queue on flash and
only then acknowledges it to the node. A second task uploads the queue in batches and
removes a record once the backend has given a terminal result for it. Commands for the
node travel in the acknowledgements. This project models that pipeline in Dafny and
proves what it is for: no acknowledged reading is lost silently, whatever fails in between.

The files follow the program, from the bottom up.

- `Words`, `Cursors`, `Crc32`: big-endian words, the reader and writer cursors, and
  CRC-32 (section 8 of RFC 1952) with a theory of what it detects.
- `Protocol`, `ProtocolCodec`, `QueueRecord`, `Deduplicator`: the three packets, the
  checksummed queue record, keys, their hash and the ring of recent keys. Formats are
  functions; the cursor code is methods proved equal to them. `WireFormat` says where each
  field lies, byte by byte, and what each decoder does with given bytes.
- `QueueCore`, `QueueEnqueue`, `QueueQueries`, `QueueRecovery`, `QueueFinish`: the queue
  as values. Every storage call has an outcome that is a parameter, and the file map
  after each call is kept, because power may be lost there.
- `DurableQueueCore`, `DurableQueue`: the classes that update the index, the ring and the
  counters in place, each method proved against those functions.
- `Gateway`, `GatewaySafety`, `GatewayHistory`, `GatewayReadings`, `GatewayUpload`,
  `GatewayDistinct`, `GatewayRing`, `GatewayProgress`, `GatewayWitness`: radio task,
  backend task, flash and power as one state machine. The two tasks interleave between any
  two queue calls; power may be lost between any two storage calls. `GatewayObjects` shows
  that the objects the tasks run take exactly these steps.
- `CommandStore`, `CommandHistory`, `AckTransmission`: the one-slot command store, all
  its runs across restarts, and the acknowledgement that carries its command.
- `PacketProcessor`, `BackendContract`, `BackendWorker`, `Base64`, `Metrics`: frame
  processing, response handling, backoff, payload text and statistics.

Reading the model: `unreadable` and `stuck` are the files a read or an erase fails on,
the `fate` of an operation says which of its writes and erases work, and `saves` or
`saved` says whether a save works. All of them range over every possibility.

Where the code does less than one might expect, the exact condition is proved; for the
first five an example is proved to fail.

- Recovery adds one to the largest id it sees, so the last 64-bit id makes the next one
  wrap: the recovered queue is valid exactly when that id was not kept or no id kept is
  listed after it (`QueueRecovery.RecoverEstablishes`, `QueueRecovery.RecoveryWraps`). Whole-run
  results therefore bound the ids in use by 2^64 - 1.
- A start erases a record it cannot read. It loses a committed reading exactly when it can
  read none of its records (`GatewaySafety.BootLosesIff`), and one failed read is enough to
  lose an acknowledged one (`GatewayWitness.OneFailedReadLosesAReading`).
- A start that can neither read nor erase a record leaves it on flash outside the index.
  The index is exact exactly when there is no such record, other than under the next id
  (`QueueRecovery.RecoverTidyIff`, `GatewayDistinct.BootExactIff`); its reading may be
  stored again (`GatewayWitness.OneStrayStoredTwice`).
- A lookup that cannot read a queued record takes its reading for new. The reading is then
  stored twice exactly if the queue does not give up that very record for room
  (`GatewayDistinct.StoredTwiceIff`, `GatewayWitness.OneFailedReadStoresTwice`).
- A restart that cannot load the command record hands out id 1 again and forgets a
  settled command (`CommandHistory.BootKeepsAllocatorIff`,
  `CommandHistory.BootKeepsFinalityIff`, `CommandHistory.FailedLoadReissues`).
- A full queue and one more record fit the space beside the reserve exactly when two
  records do (`DurableQueues.CapacityFits`).

## Model

| member | source | states |
|---|---|---|
| `GatewayReadings.AckedFramesAccountedFor` | lib/radio/packet_processor.cpp:50-103 | over every interleaving, failure, power loss and boot, for every frame an acknowledgement went out for: a record whose frame reports the same node, session and sequence number is committed (and indexed while running), or a 200 response named such a record with a terminal status, or some event lost the reading for room or because a start could read none of its records, or it was finished before the run |
| `GatewayReadings.AckedFrameWasHeard` | lib/radio/packet_processor.cpp:50-129 | an acknowledgement goes out only for a frame that was heard in the same run, outside pairing mode, from the node that was paired then |
| `GatewayHistory.AckedReadingsAccountedFor` | lib/radio/packet_processor.cpp:50-103 | the same for the keys acknowledged: each is committed, was finished before the run or by a response of it, or some event lost it: committed before, never again after, and that event erased its file as the head of a full queue or as one of the oldest beyond capacity at a start, or is a start that could read none of its records |
| `GatewayHistory.LossStep` | lib/queue/durable_queue_core.cpp:14-140 | the same for one step from any sound state: a reading leaves flash only with a terminal result, for room, or at a start that could read none of its records |
| `GatewayHistory.EvictedStep` | lib/queue/durable_queue_core.cpp:49-102 | no step, cut or not, gives up a reading for room unless it is the head of a full queue or among the oldest beyond capacity |
| `GatewayHistory.DiscardedStep` | lib/queue/durable_queue_core.cpp:31-38 | no step discards a reading except a start that can read none of its records |
| `GatewaySafety.BootLosesIff` | lib/queue/durable_queue_core.cpp:27-56 | one start loses a committed reading, other than for room, exactly when it can read none of its records |
| `GatewayWitness.OneFailedReadLosesAReading` | lib/queue/durable_queue_core.cpp:31-38 | a run in which one failed read at a start loses an acknowledged reading for good |
| `GatewaySafety.NoAckedReadingLost` | lib/radio/packet_processor.cpp:50-103 | from any queue files and any ring file that lists no unfinished reading, over every run, each key ever acknowledged is committed, had a terminal result, or is in the ledger of evicted or of discarded readings |
| `GatewaySafety.AckedReadingsSurvive` | lib/queue/durable_queue_core.cpp:14-140 | if committed files read back at every start, the last case does not arise |
| `GatewaySafety.RunKeeps` | lib/queue/durable_queue_core.cpp:14-140 | every run keeps the gateway's invariant: index, ring, saved ring, the radio task's record and the batch in flight |
| `GatewaySafety.StepKeeps` | lib/backend/backend_worker.cpp:174-261 | each single step of either task, and each cut by a power loss, keeps it and uses at most one more id |
| `GatewaySafety.EnterKeeps` | lib/queue/durable_queue_core.cpp:61-108 | an enqueue, whatever its storage calls do, leaves every acknowledged key accounted for and a batch in flight still naming its own records |
| `GatewaySafety.EnterCutKeeps` | lib/queue/durable_queue_core.cpp:75-102 | so does power lost after any storage call of an enqueue, with only the head of a full queue counted as evicted |
| `GatewaySafety.OnlyHeadGone` | lib/queue/durable_queue_core.cpp:75-102 | after any storage call of an enqueue every indexed file is still there, except that a full queue may have lost its head |
| `GatewaySafety.FinishAllKeeps` | lib/queue/durable_queue.cpp:247-272 | finishing any list of answered records, with erases failing, loses only keys with terminal results |
| `GatewaySafety.FinishCutKeeps` | lib/queue/durable_queue.cpp:247-272 | and so does power lost between two removals |
| `GatewaySafety.BootKeeps` | lib/queue/durable_queue.cpp:187-217 | a boot re-establishes the invariant from flash and reloads a ring of terminal keys only |
| `GatewayHistory.BootStartsIff` | lib/queue/durable_queue.cpp:187-217 | a start brings the gateway up exactly when each of the oldest records beyond capacity can be erased, whatever cannot be read |
| `GatewaySafety.BootCutKeeps` | lib/queue/durable_queue_core.cpp:24-56 | power lost during recovery is as safe as recovery |
| `GatewayUpload.FinishRemovesOnlyAnswered` | lib/backend/backend_worker.cpp:217-250 | after any enqueues and evictions since the peek, a file finish removes holds the exact bytes of a batch record whose index was answered; all others stay |
| `GatewayUpload.ReachableFinishIsExact` | lib/backend/backend_worker.cpp:176-254 | the same in every reachable state |
| `GatewayUpload.UnansweredStays` | lib/backend/backend_worker.cpp:213-254 | a queued record that a response leaves out keeps its entry and its bytes |
| `GatewayUpload.CompleteUploadDrains` | lib/backend/backend_worker.cpp:246-260 | a complete response that finish carries out leaves no record of the batch queued |
| `GatewayDistinct.IndexIsExact` | lib/queue/durable_queue_core.cpp:14-140 | from any flash and over every run in which no start leaves a valid record it could neither read nor erase, the index is increasing, bounded, below the next id and backed by its files, and any other valid record sits exactly at the next id |
| `GatewayDistinct.BootExactIff` | lib/queue/durable_queue_core.cpp:27-43 | a start leaves an exact index exactly when it leaves no such record |
| `GatewayDistinct.DistinctUnlessMissed` | lib/radio/packet_processor.cpp:74-101 | from flash without duplicates, over the same runs and while no lookup misses a queued reading, no two committed records hold the same reading |
| `GatewayDistinct.StoredTwiceIff` | lib/radio/packet_processor.cpp:74-97 | a successful enqueue stores a reading twice exactly when its lookup missed it and the queue does not give up that very record |
| `GatewayDistinct.StrayStoredTwice` | lib/queue/durable_queue_core.cpp:142-161 | where a start did leave one and its reading is not queued otherwise, the reading is stored a second time when it comes again |
| `GatewayDistinct.MissedIff` | lib/queue/durable_queue.cpp:238-245 | a queued reading is taken for new exactly when the ring does not know it and none of its records reads |
| `GatewayReadings.QueueKnowsIff` | lib/queue/durable_queue_core.cpp:142-161 | the queue answers for a reading exactly if an indexed record that can be read holds its node, session and sequence number |
| `GatewayReadings.RingKnowsIff` | lib/pairing/deduplicator.cpp:7-32 | the ring answers for a reading exactly if it lists its node, session and sequence number |
| `GatewayWitness.OneFailedReadStoresTwice` | lib/queue/durable_queue_core.cpp:146-155 | a run in which one failed read during a lookup stores a reading twice |
| `GatewayWitness.OneStrayStoredTwice` | lib/queue/durable_queue_core.cpp:31-38 | a run in which one failed read and erase at a start stores a reading twice, all other calls working |
| `GatewayDistinct.QueuedKeysDistinct` | lib/radio/packet_processor.cpp:74-101 | if every read succeeds, queued readings stay distinct and nothing is discarded |
| `GatewayUpload.FinishTouches` | lib/queue/durable_queue.cpp:247-272 | finish removes only entries its actions name, and all of them if it succeeds |
| `QueueFinish.FinishLeaves` | lib/queue/durable_queue.cpp:247-272 | exactly the named and erasable records leave index and flash; the ring is that of remembering their keys in order; success exactly if every action took a record out; changed exactly if a key was added |
| `QueueFinish.AddsChanges` | lib/queue/durable_queue.cpp:258-262 | for at most 64 removals a change is reported exactly if the ring is not what it was; without an added key it never is |
| `QueueFinish.FullCircle` | lib/pairing/deduplicator.cpp:34-40 | with 65 keys a ring can change and end as it was |
| `GatewayRing.RingFollowsLog` | lib/queue/durable_queue.cpp:247-272 | over every run in which the ring file saves and loads, restarts included, the ring holds exactly the newest 64 of the keys that were on file and those finished since |
| `GatewayRing.RingFollowsFinishes` | lib/queue/durable_queue.cpp:247-272 | between two starts the same holds whether saves work or not |
| `GatewayRing.FinishedIsDuplicate` | lib/radio/packet_processor.cpp:74-83 | over the same runs, a frame of a reading finished among the newest 64 is acknowledged and leaves queue, files and ring as they are, whatever reads and writes fail |
| `GatewayProgress.ReadingIsAcknowledged` | lib/radio/packet_processor.cpp:71-129 | when the radio works, a reading of the paired node that fits a record is acknowledged if it is known or the enqueue can make it durable, new or known, full queue or not, with any backend events between the steps |
| `GatewayProgress.BatchIsUploaded` | lib/backend/backend_worker.cpp:174-261 | when files read and erase, a round with any response that answers every record, in any order and with any terminal results, takes exactly the records of its batch out of the queue and gives their readings a terminal result, with any frames, enqueues and evictions between its steps |
| `GatewayProgress.RoundsDrain` | lib/backend/backend_worker.cpp:174-261 | while the radio is silent, as many such rounds as it takes to cover the queue by batches empty it, and every reading that was queued has a terminal result |
| `GatewayObjects.ProcessIsThreeEvents` | lib/radio/packet_processor.cpp:43-129 | one processed frame leaves queue, files, ring and acknowledged keys as the three radio events of the state machine do |
| `GatewayObjects.ResponseIsTwoEvents` | lib/backend/backend_worker.cpp:201-261 | handling a response leaves queue, files, ring and ring file as its response and finish events do |
| `GatewayObjects.BeginIsBoot` | lib/queue/durable_queue.cpp:187-217 | a start of the queue object leaves queue, files, ring and ring file as the boot event does, and reports success exactly when the gateway then runs |
| `QueueEnqueue.EnqueueKeeps` | lib/queue/durable_queue_core.cpp:61-108 | every enqueue keeps the index invariant; it erases at most the head and writes only at the next id |
| `QueueEnqueue.EnqueueSucceedsIff` | lib/queue/durable_queue_core.cpp:61-108 | an enqueue succeeds exactly when the record is admissible and either the write works and a full queue can give up its head, or the write fails on a full queue whose head can be erased and the second write works |
| `QueueEnqueue.EnqueuedState` | lib/queue/durable_queue_core.cpp:75-106 | what success leaves: index, next id, files, dropped head, no error |
| `QueueEnqueue.RefusedState` | lib/queue/durable_queue_core.cpp:61-101 | what each failure leaves: nothing changed, the record undone or left at the next id, or the head of a full queue gone; and which failures count as errors |
| `QueueEnqueue.EnqueueIsFifo` | lib/queue/durable_queue_core.cpp:61-108 | as a queue of bytes, success appends and gives up the head exactly when full; failure gives up at most the head of a full queue |
| `QueueEnqueue.KeysAfter` | lib/queue/durable_queue_core.cpp:75-106 | which keys are queued after an enqueue, in both outcomes |
| `QueueRecovery.RecoverEstablishes` | lib/queue/durable_queue_core.cpp:14-59 | recovery keeps exactly the newest capacity records that are valid, in id order, and leaves no other valid record; the queue is valid exactly when the last 64-bit id was not kept or is the last kept id of the listing |
| `QueueRecovery.RecoverTidyIff` | lib/queue/durable_queue_core.cpp:27-43 | no valid record beside the index is left, other than at the next id, exactly when every record that could neither be read nor erased has that id |
| `QueueRecovery.RecoverFiles` | lib/queue/durable_queue_core.cpp:14-59 | kept files are untouched, and any valid file left is indexed or was unreadable |
| `QueueRecovery.RecoverLeaves` | lib/queue/durable_queue_core.cpp:27-56 | for each file whether recovery leaves it: a kept record unless given up for room, any other exactly if it cannot be erased |
| `QueueRecovery.RecoverCompletesIff` | lib/queue/durable_queue_core.cpp:49-59 | recovery completes exactly when each of the oldest records beyond capacity can be erased, and otherwise stops at the first that cannot |
| `QueueRecovery.RecoverIdempotent` | lib/queue/durable_queue_core.cpp:14-59 | recovering again, in any listing order, gives the same index, even if the first time erased records it could not read; and the same queue if the last 64-bit id was not kept |
| `QueueRecovery.CrashAnywhere` | lib/queue/durable_queue_core.cpp:75-106 | stop after any storage call of an enqueue, recover: the old index, that of a full queue without its head, the completed one, or the one completed by the record that a failed undo had left |
| `QueueRecovery.EnqueueCrashSafe` | lib/queue/durable_queue_core.cpp:61-108 | the same for the whole enqueue, including records it refuses |
| `QueueRecovery.TraceStates` | lib/queue/durable_queue_core.cpp:75-102 | the file maps between the storage calls of an enqueue are five known ones |
| `QueueRecovery.IndexUnique` | lib/queue/durable_queue_core.cpp:45-48 | an ordered index with the right hashes is determined by its ids |
| `QueueRecovery.NextAboveAll` | lib/queue/durable_queue_core.cpp:43 | below the last id, the next id is one above the largest recovered one |
| `QueueRecovery.NextIsFreshIff` | lib/queue/durable_queue_core.cpp:43 | the next id is above every recovered id exactly when the last 64-bit id is not among them |
| `QueueRecovery.RecoveryWraps` | lib/queue/durable_queue_core.cpp:14-59 | flash with the last id and two lower ones from which recovery completes with a next id that is not above an indexed record |
| `QueueQueries.ContainsExact` | lib/queue/durable_queue_core.cpp:142-161 | with reads that succeed, contains holds exactly when a queued record has an equal key, whatever the hash collisions |
| `QueueQueries.ContainsKeys` | lib/queue/durable_queue_core.cpp:142-161 | a hit is always true even when reads fail |
| `QueueQueries.PeekIsPrefix` | lib/queue/durable_queue_core.cpp:110-126 | peek returns the committed records of the queue's prefix, or nothing exactly when one is unreadable |
| `QueueQueries.RemoveKeeps` | lib/queue/durable_queue_core.cpp:128-140 | remove takes out exactly the named record and file, or changes nothing |
| `QueueQueries.EntryFile` | lib/queue/durable_queue_core.cpp:31-42 | an indexed file is the encoding of a record with its own id and telemetry payload |
| `DurableQueueCores.DurableQueueCore.Append` | lib/queue/durable_queue_core.cpp:61-108 | the method computes the enqueue function: index, files, counters and the file map after every storage call |
| `DurableQueueCores.DurableQueueCore.WriteAndAdmit` | lib/queue/durable_queue_core.cpp:75-107 | its write, drop-oldest, retry and undo calls, in order |
| `DurableQueueCores.DurableQueueCore.AdmitWritten` | lib/queue/durable_queue_core.cpp:92-107 | once the record is on flash: the bound restored or the record undone, then published |
| `DurableQueueCores.DurableQueueCore.Rebuild` | lib/queue/durable_queue_core.cpp:14-59 | recovery as a scan, a sort and a trim computes the recovery function; every file map on the way is a cut point |
| `DurableQueueCores.DurableQueueCore.Scan` | lib/queue/durable_queue_core.cpp:27-44 | the scan keeps exactly the valid readable records, erases and counts the rest, and tracks the next id |
| `DurableQueueCores.DurableQueueCore.Trim` | lib/queue/durable_queue_core.cpp:49-56 | the trim erases the oldest until the rest fits or one cannot be erased |
| `DurableQueueCores.DurableQueueCore.PeekBatch` | lib/queue/durable_queue_core.cpp:110-126 | the loop returns what the peek function does and counts a failed read once |
| `DurableQueueCores.DurableQueueCore.RemoveById` | lib/queue/durable_queue_core.cpp:128-140 | search and removal compute the remove function |
| `DurableQueueCores.DurableQueueCore.Holds` | lib/queue/durable_queue_core.cpp:142-161 | the loop answers the contains predicate and counts the failed reads before its first hit |
| `DurableQueueCores.SortedIndex` | lib/queue/durable_queue_core.cpp:45-48 | sorting by id turns any listing order into the one index of the kept files |
| `DurableQueues.DurableQueue.constructor` | lib/queue/durable_queue.cpp:187-196 | an empty queue of the capacity derived from the file system |
| `DurableQueues.DurableQueue.Begin` | lib/queue/durable_queue.cpp:187-217 | recovery, then the ring: reloaded if the file is valid, dropped otherwise; errors and evictions are carried into the counters |
| `DurableQueues.DurableQueue.Enqueue` | lib/queue/durable_queue.cpp:219-231 | persisted and dropped-oldest are reported truthfully and counted |
| `DurableQueues.DurableQueue.Contains` | lib/queue/durable_queue.cpp:238-245 | known means recently finished or still queued |
| `DurableQueues.DurableQueue.Finish` | lib/queue/durable_queue.cpp:247-272 | every action in order, the ring saved once if it changed; records removed are counted as uploaded or as rejected by their verdict, all others as errors, and the files at any moment are those after some of the actions |
| `DurableQueues.DurableQueue.FinishAction` | lib/queue/durable_queue.cpp:250-269 | one action: removed exactly if it names a queued record that can be erased, its key remembered, one counter advanced |
| `DurableQueues.CapacityMonotone` | lib/queue/durable_queue.cpp:421-431 | a larger file system never holds fewer records |
| `DurableQueues.CapacityValue` | lib/queue/durable_queue.cpp:421-431 | four fifths of the 280-byte slots beyond 64 KiB, rounded down, but at least 1 and at most 4096 |
| `DurableQueues.DeriveCapacity` | lib/queue/durable_queue.cpp:421-431 | the capacity lies between 1 and 4096 |
| `DurableQueues.CapacityFits` | lib/queue/durable_queue.cpp:421-431 | a full queue plus one record fit beside the reserve exactly when two records do |
| `DurableQueues.QueueFitsFlash` | lib/queue/durable_queue_core.cpp:75-102 | then, between any two storage calls of an enqueue, all records fit the unreserved space |
| `QueueRecords.RecordBijection` | lib/queue/queue_record.cpp:90-168 | decoding accepts exactly the encodings of encodable records and inverts them |
| `WireFormats.RecordOnFlash` | lib/queue/queue_record.cpp:90-120 | the offset, width and byte order of every field of a record file |
| `WireFormats.RecordAcceptedIff` | lib/queue/queue_record.cpp:122-168 | in the bytes of the file: which files are queue records |
| `QueueRecords.TornRejected` | lib/queue/queue_record.cpp:122-168 | a proper prefix or extension of an encoded record is rejected |
| `QueueRecords.BodyDamageRejected` | lib/queue/queue_record.cpp:122-180 | any change confined to four consecutive body bytes is rejected |
| `QueueRecords.TrailerDamageRejected` | lib/queue/queue_record.cpp:122-180 | any change confined to the checksum is rejected |
| `QueueRecords.BurstRejected` | lib/queue/queue_record.cpp:122-180 | so is any burst of at most 32 bits at any bit position of the body |
| `QueueRecords.WriteRecord` | lib/queue/queue_record.cpp:90-120 | the appending code produces the encoding, and fails exactly on records that are not encodable |
| `QueueRecords.ReadRecord` | lib/queue/queue_record.cpp:122-168 | the cursor code computes the decoder |
| `Crc32.ComputeCrc` | lib/queue/queue_record.cpp:170-180 | the nested loop computes CRC-32 |
| `Crc32.RunIsShift` | lib/queue/queue_record.cpp:170-180 | running the register over bytes is shifting in their bits at once |
| `Crc32.CollisionIff` | lib/queue/queue_record.cpp:170-180 | two messages of one length collide exactly when their difference is shifted to zero |
| `Crc32.BurstDetected` | lib/queue/queue_record.cpp:170-180 | no non-zero burst of 32 bits is |
| `Crc32.WindowDetected` | lib/queue/queue_record.cpp:170-180 | messages that differ within four consecutive bytes have different checksums |
| `Crc32.PublishedCrc` | lib/queue/queue_record.cpp:170-180 | the published values of no bytes and of four bytes of ones, and the table entry that is the polynomial |
| `Protocol.TelemetryBijection` | lib/protocol/protocol.cpp:153-217 | the decoder accepts exactly the encodings of well-formed packets and inverts them |
| `Protocol.AckRoundTrip` | lib/protocol/protocol.cpp:219-262 | decoding an encoded acknowledgement returns everything that travels |
| `Protocol.AckBijection` | lib/protocol/protocol.cpp:219-262 | the decoder accepts exactly the encodings of canonical acknowledgements |
| `Protocol.ResultBijection` | lib/protocol/protocol.cpp:264-298 | the same for command results with an existing command type |
| `Protocol.EncodeTelemetry` | lib/protocol/protocol.cpp:153-177 | an encoded reading has 62 bytes and the node id |
| `Protocol.ParsePutHeader` | lib/protocol/protocol.cpp:79-107 | a written header reads back, for every valid node id |
| `WireFormats.HeaderErrors` | lib/protocol/protocol.cpp:88-107 | which error a rejected header gives, in the bytes of the frame |
| `WireFormats.TelemetryOnAir` | lib/protocol/protocol.cpp:153-177 | the offset, width and byte order of every field of a reading |
| `WireFormats.TelemetryVerdict` | lib/protocol/protocol.cpp:179-217 | in the bytes of the frame: accepted exactly if the codes exist and the fields agree, otherwise which error comes first |
| `WireFormats.AckOnAir` | lib/protocol/protocol.cpp:219-236 | the same layout for acknowledgements and their command arguments |
| `WireFormats.AckVerdict` | lib/protocol/protocol.cpp:238-262 | in the bytes of the frame: what the decoder of acknowledgements does with it |
| `WireFormats.ResultOnAir` | lib/protocol/protocol.cpp:264-279 | the layout of a command result |
| `WireFormats.ResultVerdict` | lib/protocol/protocol.cpp:281-298 | in the bytes of the frame: what the decoder of command results does with it |
| `ProtocolCodec.WriteTelemetry` | lib/protocol/protocol.cpp:153-177 | the cursor code writes the encoding into the buffer exactly when it is allowed and fits |
| `ProtocolCodec.ReadTelemetry` | lib/protocol/protocol.cpp:179-217 | the cursor code computes the decoder, including which error comes first |
| `ProtocolCodec.WriteAck` | lib/protocol/protocol.cpp:219-236 | as for telemetry |
| `ProtocolCodec.ReadAck` | lib/protocol/protocol.cpp:238-262 | as for telemetry |
| `ProtocolCodec.WriteResult` | lib/protocol/protocol.cpp:264-279 | as for telemetry |
| `ProtocolCodec.ReadResult` | lib/protocol/protocol.cpp:281-298 | as for telemetry |
| `ProtocolCodec.ReadHeader` | lib/protocol/protocol.cpp:88-107 | the header code computes the header parser and its error order |
| `ProtocolCodec.NodeIdIsValid` | lib/protocol/protocol.cpp:143-151 | the loop decides whether a node id is valid |
| `Cursors.Writer.U32` | lib/protocol/protocol.cpp:24-28 | four bytes appended, or failure exactly when they do not fit |
| `Cursors.Reader.U32` | lib/protocol/protocol.cpp:57-64 | a big-endian word taken off the front, or failure exactly when it is not there |
| `Words.TwosComplement` | lib/protocol/protocol.cpp:163-169 | the bits of a negative number are the number modulo the word size |
| `TelemetryKeys.StrEqualIff` | lib/pairing/deduplicator.cpp:16-20 | buffers compare equal exactly when the strings before their terminators are equal |
| `TelemetryKeys.KeyKeepsId` | lib/pairing/deduplicator.cpp:7-14 | a key built from a valid id keeps it whole |
| `TelemetryKeys.KeyOfIff` | lib/pairing/deduplicator.cpp:7-20 | the keys of two packets are equal exactly when node id, session and sequence number are |
| `TelemetryKeys.EqualKeysHashAlike` | lib/queue/durable_queue_core.cpp:170-190 | keys that compare equal hash alike, whatever follows their terminators |
| `TelemetryKeys.HashInputIff` | lib/queue/durable_queue_core.cpp:170-190 | the bytes that are hashed are equal exactly when the keys are |
| `TelemetryKeys.PublishedFnv` | lib/queue/durable_queue_core.cpp:170-190 | the mixing step gives the published FNV-1a value of the letter a |
| `TelemetryKeys.ComputeKeyHash` | lib/queue/durable_queue_core.cpp:170-190 | the mixing loops compute the 64-bit hash |
| `RecentKeys.RecentDeduplicator.Remember` | lib/pairing/deduplicator.cpp:34-40 | a new key is appended and, in a full ring, the oldest is forgotten; a known one changes nothing |
| `RecentKeys.RecentDeduplicator.Contains` | lib/pairing/deduplicator.cpp:27-32 | the loop decides whether a key is remembered |
| `RecentKeys.RecentDeduplicator.OldestAt` | lib/pairing/deduplicator.cpp:47-50 | indexing counts from the oldest key |
| `RecentKeys.RingHoldsNewest` | lib/pairing/deduplicator.cpp:22-50 | after any sequence of remembers the ring holds exactly the newest capacity entries of the log of new keys, all distinct |
| `RecentKeys.PersistThenLoad` | lib/queue/durable_queue.cpp:334-394 | what the ring held is reloaded in the same order |
| `WireFormats.RingOnFlash` | lib/queue/durable_queue.cpp:369-394 | the layout of the ring file: magic, count, the keys oldest first, checksum |
| `RecentKeys.RingDamageRejected` | lib/queue/durable_queue.cpp:334-346 | a ring file that loads is rejected once four consecutive bytes or its checksum are damaged |
| `RecentKeys.WriteRecent` | lib/queue/durable_queue.cpp:369-380 | the loop writes the ring file, wrapped or not |
| `RecentKeys.LoadRecent` | lib/queue/durable_queue.cpp:334-367 | the loop accepts exactly the valid ring files and remembers their keys in order |
| `BackendContract.ParseResponse` | lib/backend/backend_contract.cpp:72-102 | the loop with its seen flags computes the response parser |
| `BackendContract.AcceptedIff` | lib/backend/backend_contract.cpp:72-102 | in the strings of the response: accepted exactly when it has at most as many items as the batch has records, each with an index of the batch and one of INSERTED, DUPLICATE, REJECTED_INVALID, no index twice; then one result for each item, in order, with that index and status |
| `BackendContract.CompleteIsPermutation` | lib/backend/backend_contract.cpp:110-114 | a response is complete exactly when every record of the batch is answered, and then by exactly one result |
| `BackendWorkers.BackendWorker.UploadOnce` | lib/backend/backend_worker.cpp:174-261 | a round that cannot read or serialize its batch changes nothing; any other ends as its response says; it removes only records of its batch, all of them if it succeeds, and advances the backoff exactly when it does not |
| `BackendWorkers.BackendWorker.HandleResponse` | lib/backend/backend_worker.cpp:201-261 | on whatever the queue has become: an unusable response changes nothing, a usable one is finished as a whole; success exactly if complete and carried out |
| `BackendWorkers.BackendWorker.Dequeue` | lib/backend/backend_worker.cpp:212-250 | what a response answers is finished as a whole, or nothing is |
| `BackendWorkers.BackendWorker.BuildActions` | lib/backend/backend_worker.cpp:219-245 | one action for each result with the id, key and verdict of its record |
| `BackendWorkers.OtherwiseRetained` | lib/backend/backend_worker.cpp:201-218 | any HTTP status but 200, and any response with an unknown status string, a missing or foreign index, or an index named twice, leaves queue, files, ring and ring file as they are |
| `BackendWorkers.AnsweredLeave` | lib/backend/backend_worker.cpp:219-250 | a queued record of the batch leaves the queue exactly if the response names its index and its file can be erased |
| `BackendWorkers.SucceedsIff` | lib/backend/backend_worker.cpp:246-261 | a round succeeds exactly if the response answers the whole batch, every record of it is still queued and can be erased, and the ring is saved if it changed |
| `BackendWorkers.ResponseEffect` | lib/backend/backend_worker.cpp:217-260 | only answered records leave the queue; a complete response carried out empties it of the batch |
| `BackendWorkers.RoundEffect` | lib/backend/backend_worker.cpp:176-261 | the same from the peeked prefix of the queue |
| `BackendWorkers.DelayAdvances` | lib/backend/backend_worker.cpp:545-555 | one more failure turns the closed form for k failures into that for k + 1, without overflow |
| `BackendWorkers.DelayReachesMaximum` | lib/backend/backend_worker.cpp:545-555 | enough failures reach the maximum |
| `BackendWorkers.BackendWorker.SetFailure` | lib/backend/backend_worker.cpp:526-556 | the delay in force stays the closed form of the failures counted |
| `BackendWorkers.BackendWorker.Pause` | lib/backend/backend_worker.cpp:165-170 | with jitter the wait is at most six fifths of the maximum |
| `PacketProcessors.PacketProcessor.Process` | lib/radio/packet_processor.cpp:7-129 | the outcome of every frame: gating order, dedup, durable before acknowledged, exactly when a result confirms, the latest reading, and one outcome counted |
| `PacketProcessors.ReadingOutcome` | lib/radio/packet_processor.cpp:50-129 | for a reading of the paired node: duplicate exactly if ring or queue know it, queue untouched then and enqueued otherwise, failure exactly if the enqueue cannot make it durable, else an acknowledgement that decodes to what the node should be told, and the outcome that the radio and the lookup decide |
| `PacketProcessors.ResultOutcomeIff` | lib/radio/packet_processor.cpp:20-41 | for a decoded command result: confirmed, duplicate or ignored, in terms of node, session, command id, type, state and save |
| `PacketProcessors.PacketProcessor.Accept` | lib/radio/packet_processor.cpp:71-129 | nothing is sent unless the reading is held by the ring or the queue; what is sent is its acknowledgement |
| `PacketProcessors.PacketProcessor.Secure` | lib/radio/packet_processor.cpp:71-101 | a reading is enqueued exactly when it is not known |
| `PacketProcessors.PacketProcessor.ProcessResult` | lib/radio/packet_processor.cpp:9-41 | a result is confirmed exactly for the paired node's current session and the matching active command |
| `PacketProcessors.EnqueuedIsHeld` | lib/radio/packet_processor.cpp:85-97 | after a reported success the reading's key is in a committed indexed record |
| `PacketProcessors.CountersConserve` | lib/radio/packet_processor.cpp:7-129 | over every sequence of outcomes no frame is lost or counted twice |
| `PacketProcessors.CountersByOutcome` | lib/radio/packet_processor.cpp:7-129 | each counter is the number of outcomes of its kinds |
| `PacketProcessors.PacketProcessor.Balanced` | lib/radio/packet_processor.hpp:65-82 | the processor's own counters balance against the frames it saw |
| `AckTransmissions.CommandNeverBlocksAck` | lib/radio/radio_service.cpp:205-225 | for every decoded reading and clock, over every run of the command store, saved records loading or not, the acknowledgement encodes within 96 bytes and decodes to node, session and sequence of the reading, to the gateway's seconds exactly if the clock is trusted and they fit 32 bits (0 and not valid otherwise), and to the last command with its argument exactly if that is pending or sent |
| `AckTransmissions.TransmitAck` | lib/radio/radio_service.cpp:205-271 | what is sent, what it tells the node once decoded, and that a command is marked sent only after it went out and the radio listens again |
| `AckTransmissions.SendingMarksOnlyTheCommand` | lib/radio/radio_service.cpp:261-269 | exactly an active command that was carried is marked: sent, counted once more, at the trusted time or -1; nothing else of the record changes |
| `AckTransmissions.CommandReachesNode` | lib/commands/command_store.cpp:102-138 | a command that can be created is in the next acknowledgement with its new id, type and argument, even if power is lost right after it was saved |
| `CommandHistory.CommandIdsAndFinality` | lib/commands/command_store.cpp:64-210 | over every run whose restarts load the saved record, or happen before any id is handed out: ids strictly increase, all commands but the last are settled, a settled command never changes, a confirmed one had a result with its id and type, RAM is what was last saved |
| `CommandHistory.ConfirmedWasHeard` | lib/commands/command_store.cpp:157-184 | over every run, saved records loading or not, each confirmed record was confirmed by a result heard with its id and type, and every saved record is complete |
| `CommandHistory.HistoryGrows` | lib/commands/command_store.cpp:91-100 | ids handed out and records saved are never taken back |
| `CommandHistory.MarkKeeps` | lib/commands/command_store.cpp:140-155 | a late mark-sent of any id, after any cancel and create, keeps all that |
| `CommandHistory.BootKeepsAllocatorIff` | lib/commands/command_store.cpp:64-89 | a restart keeps the allocator above all ids handed out exactly when the record loads or there were none |
| `CommandHistory.BootKeepsFinalityIff` | lib/commands/command_store.cpp:64-89 | a restart keeps a settled command exactly when the record loads |
| `CommandHistory.FailedLoadReissues` | lib/commands/command_store.cpp:64-89 | a run in which a failed load hands out id 1 twice |
| `CommandStores.CommandStore.Begin` | lib/commands/command_store.cpp:64-89 | a trusted record is restored, anything else is replaced |
| `CommandStores.CommandStore.Commit` | lib/commands/command_store.cpp:91-100 | saved first, published only then |
| `CommandStores.CommandStore.Create` | lib/commands/command_store.cpp:102-138 | a new pending command under the next id, or no change |
| `CommandStores.CreatingIff` | lib/commands/command_store.cpp:102-138 | when a request is accepted, and every field of the command it makes |
| `CommandStores.CommandStore.MarkSent` | lib/commands/command_store.cpp:140-155 | only the current active command is marked |
| `CommandStores.CommandStore.Confirm` | lib/commands/command_store.cpp:157-184 | only a matching result confirms; repeated results change nothing |
| `CommandStores.ConfirmingIff` | lib/commands/command_store.cpp:157-184 | which results close the command, what it takes over from them and what it keeps |
| `CommandStores.CommandStore.Cancel` | lib/commands/command_store.cpp:186-199 | only the current active command is cancelled |
| `CommandStores.CancellingIff` | lib/commands/command_store.cpp:186-199 | which command is cancelled, and that only its state changes |
| `CommandStores.OneByteDamageDetected` | lib/commands/command_store.cpp:28-61 | changing one byte of a stored record is noticed exactly if it is not in the padding behind the checksum |
| `CommandStores.ImageOfValid` | lib/commands/command_store.cpp:50-62 | the stored bytes of a record are intact exactly when its checksum field is right |
| `CommandStores.TrustedIff` | lib/commands/command_store.cpp:28-61 | a stored record is trusted exactly if its image is intact and the checked fields are in range |
| `WireFormats.CommandOnFlash` | lib/commands/command_store.hpp:28-49 | the offset and width of every field of the stored command record, least significant byte first, padding zero |
| `CommandStores.ComputeChecksum` | lib/commands/command_store.cpp:28-36 | the loop computes the checksum |
| `CommandStores.PublishedFnv32` | lib/commands/command_store.cpp:28-36 | the checksum step gives the published FNV-1a value of the letter a |
| `Base64.Base64Bijection` | lib/backend/base64.cpp:22-65 | decoding accepts exactly the encodings of non-empty byte strings and inverts them |
| `Base64.EncodedBits` | lib/backend/base64.cpp:22-37 | the letters spell the bits of the input, then zero bits (section 4 of RFC 4648) |
| `Base64.AlphabetIff` | lib/backend/base64.cpp:8-18 | letters and values are those of the alphabet in table 1 of RFC 4648 |
| `Base64.EncodeLength` | lib/backend/base64.cpp:22-37 | four letters for every three bytes begun |
| `Base64.EncodeBytes` | lib/backend/base64.cpp:22-37 | the loop computes the encoding |
| `Base64.DecodeText` | lib/backend/base64.cpp:39-65 | the loop and its final comparison compute the decoder |
| `Metrics.RunningStatistics.Record` | lib/metrics/running_statistics.cpp:5-16 | count, extremes and mean are those of all samples so far |
| `Metrics.RunningStatistics.MeanInRange` | lib/metrics/running_statistics.cpp:5-16 | the mean lies between the extremes |
| `Metrics.AckLatencyStatistics.Record` | lib/metrics/running_statistics.cpp:22-28 | the three series grow together or not at all |
| `Metrics.AckLatencyStatistics.MeansAdd` | lib/metrics/running_statistics.cpp:22-28 | the mean time to completion is the mean time to start plus the mean duration |

## Left out

- Dashboard, Wi-Fi, OTA, clock, logging, application start-up and tools: user interface, drivers and wiring.
- HTTP, TLS, JSON and heartbeats: a response is its status and its list of items, each with an index and a status if they had the right type.
- The radio and RTOS libraries: a transmission and the return to receiving each work or fail; a mutex-protected method is one step, cut only by power loss.
- The file system: a record write is one atomic step, so temporary files, their renaming and their clean-up are not shown; files whose names are not ids are not listed.
- Storage failures change nothing: a write or save that reports failure but took effect is outside the model.
- GatewayReadings.AckedFramesAccountedFor: bounds run length plus the largest id on flash by 2^64 - 1, because the next id wraps there.
- GatewayHistory.AckedReadingsAccountedFor: bounds run length plus the largest id on flash by 2^64 - 1, because the next id wraps there.
- GatewaySafety.NoAckedReadingLost: has the same bound.
- GatewayDistinct.DistinctUnlessMissed: excludes exactly the starts after which the index is not exact; a run with one such start stores a reading twice, as shown.
- CommandHistory.CommandIdsAndFinality: excludes restarts that cannot load the record last saved once an id was handed out; with one the ids repeat, as shown.
- CommandStores.ComputeChecksum: takes the structure's padding bytes as zero when it seals a record; the compiler does not promise that.
- Metrics.RunningStatistics.Record: the mean is a real number; floating-point rounding is not modelled.
- GatewayRing.RingFollowsLog: a power loss between two removals loses the keys removed since the last save, so the log leaves those out.
- DurableQueues.DurableQueue.Begin: does not load the counters saved by an earlier run.
- DurableQueues.DurableQueue.Finish: does not save the counters from time to time.
- DurableQueues.QueueFitsFlash: charges records only; a corrupt file that cannot be erased takes space that nothing sets aside.
- PacketProcessors.PacketProcessor.Process: the last-latency gauges are left out, and the latest reception is kept as its packet only.
- Counters are natural numbers: their wrap-around and their saving to preferences are not modelled.
- Floats in queue records are their 32-bit patterns, and a payload buffer is its used part.
- Enumerations are their underlying bytes, so values outside the declared ones are covered too.
- The index is sorted by insertion; the library's own sort is not modelled.
- Configuration is reduced to the bounds the worker relies on: initial backoff positive and at most the maximum, batches of at most 50.
- Pairing is reduced to two inputs of each frame: the pairing mode and the paired id.
- Name tables and hardware-in-the-loop code: nothing to prove.
