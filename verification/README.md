# TransferUDT: a model of its transfer core, with proofs

TransferUDT cuts a file into chunks on an agent, ships them over authenticated
sessions to one or more servers, and rebuilds the file there, while servers
restart and chunks arrive twice, out of order, damaged, or superseded by a newer
version of the file. This project models the parts that make that work and proves
what they are for.

| Modules | What they model |
|---|---|
| `TransferPlans`, `ServerFile`, `ServerMachine` | the server's state per output file, one delivery, one finalization, a crash cut at any effect, a restart |
| `ServerSafety`, `ServerRuns`, `ServerDurability`, `ServerTasks`, `ServerBudget`, `ServerProgress` | theorems over every run of that machine: what never goes wrong, what is lost and when, and what every delivery achieves |
| `ServerDatabase`, `FileReceiving` | the server's tables and the receiver's fields, loops and retries, tied to the machine step by step |
| `FileSplit`, `AgentDatabase`, `AgentSending` | the splitting loop, the agent's tables, the sending and resending loops |
| `AgentLedger`, `AgentRetries`, `AgentRaces`, `AgentProgress` | one file's rows on the agent under any interleaving of splits with the resend passes and clean-ups of the background thread; three runs that go wrong; what acknowledged splits and answered passes achieve |
| `BigEndian`, `PathNames`, `ChunkPacket`, `SecureEnvelope` | the wire formats |
| `SecureSession` | sequence numbers in one direction of a session |
| `PoolMachine`, `ConnectionPool`, `ThreadPools` | the connection pool and the thread pool as lock-held steps |
| `FileKeys`, `HandshakeText`, `HandshakeTranscripts` | namespaces, keys and paths; handshake messages and transcripts |
| `EndToEnd` | from the agent's split to the server's recorded file |

Values and step functions carry the theorems. Code that changes state in place is a
class or a method beside them, whose contract says that its new state is the one the
step function gives, so every theorem about runs applies to it.

`dafny verify dfyconfig.toml` checks the whole project.

## Assumptions

- `receiveChunk` and `tryReconstructFile` are one atomic step each, except that a
  delivery may be cut after any of its durable effects. The pre-checks in the code run
  outside the file mutex; finer interleavings do not keep the invariants.
- Each transfer id has one content and one chunk plan. `ServerBudget.MixedPlansLoseBytes`
  shows why: the duplicate test goes by chunk number only.
- A damaged payload never passes its digest.
- A versioned name is one no file has yet.
- Rows, records and bytes survive a crash of the server process; memory does not. The
  output file is written with the process's own cache, so loss of power is outside.
- Distinct keys name distinct output files. `FileKeys.SamePathIff` says when that holds.
- The row a file's active transfer id is read from is the first one inserted: rows of
  a file are only deleted together.
- The thread pool's queue is shared: client connections wait in it beside finalizations
  (ServerUDT.cpp:72, 343-345). At a start-up it is empty, because the receiver is built
  before connections are accepted, and takes as many tasks as it has room for; workers
  may only make room.
- Memory allocation does not fail on the server.
- The file does not change during one split and every read is full.
- The network is per direction: a packet is delivered, if at all, to the end it was
  encrypted for. The code's header does not ensure that (`SecureSession.ReflectedPacket`).
  Only packets encrypted under the session's key decrypt (the log in
  `SecureSession`). Encryption, signatures, key agreement and derivation are functions
  given as parameters, with decrypt-after-encrypt, determinism and symmetry only.
- A directory walk for the storage budget meets all of the client's files, or fails
  visibly. `FileReceiving.MetUsage` says what one that ends early counts.
- Where `AgentLedger` speaks of acknowledgements over runs it assumes that each late
  success update finds, under its number, the row of the chunk it resent or none
  (`ConcludesMatch`). An UPDATE could check this; the code does not. It can only fail
  when a split began since the pass listed the row (`MismatchMeansNewSplit`).
- Where `AgentRetries` equates counters with charges it assumes that a pass charges only
  from a listing of the current split (`ChargesCurrent`). The cap, the abandonment
  limit, the monotone counters and the fidelity of resends need no such assumption.

## Where the code falls short of what it is for

Each of these is a lemma with the exact condition or a whole failing family:

- A complete file can be left without the task that finalizes it, and then waits for a
  restart: when its last chunk finds the pool's queue full (of tasks or of waiting
  clients) or the pool stopped, when a read of the completion accounting throws after
  the row is stored, when the finalization meets a database error (with the flag left
  up if the rollback throws), or when a start-up finds too little queue room or cannot list unfinished files. `ServerTasks.UnservedIff`
  and `UnservedRunIff` are the exact conditions, `ServerDurability.UnqueuedIsStuck`,
  `OrphanFlagIsStuck` and `RestartRecovers` what follows, and `EndToEnd.SplitIsDelivered`
  says that delivery fails in no other way.
- A delivery cut between creating an output file and inserting its first row, or after
  a replacement or reset has emptied the tables and before the old output is gone,
  blocks the file for ever, and the agent is told AlreadyCompleted (`DeliveryStrands`,
  `StrandedForEver`, `AlreadyCompletedMeans`).
- A resend pass whose listing outlives a new split can report a file nobody has
  (`AgentRaces.StaleListingReportsUnsentFile`).
- The clean-up marks a file processed and drops its rows without asking again whether it
  is fully sent: a split that begins in between loses its rows
  (`AgentRaces.CleanUpDropsUnsentSplit`; exact condition in `AgentLedger.CleanUpMeansSent`).
- A clean-up that marks the file while a new split is opening leaves it 'processed' over
  content no target has (`AgentRaces.MarkOutlivesOpening`).
- A directory walk whose advance fails ends quietly and counts too little, so a file may
  be admitted beyond the client's budget (`FileReceiving.OverspendsIff`).
- The agent cuts files into more chunks than the server's parser admits
  (`EndToEnd.SplitPassesParserIff`).
- A number taken for a packet whose encryption fails ends the session
  (`SecureSession.LostNumberEndsChannel`).
- An exception out of acquire, out of creating a connection or out of a keep-alive pass
  leaks pool slots (`PoolMachine.CountExactIff`, `LossExhaustsPool`); a release racing
  shutdown strands a connection (`PoolMachine.StrandedIff`).
- A second `stop` of the thread pool returns before the tasks have run, although its
  documentation says it waits (`ThreadPools.SecondStopReturnsEarly`).
- A unanimous AlreadyCompleted makes the agent drop the file's rows and count it as
  processed, whatever the answers were about and whatever became of its other chunks
  (`AgentLedger.ProcessedMeans`, `AgentSending.SendChunk`, `AlreadyCompletedMeans`).
- A start-up forgets which fresh names the Versioned policy has given: the rest of such a
  transfer is answered AlreadyCompleted by the original (`ServerProgress.StartUpForgetsNames`).
- A chunk row stored without its offset is resent from the wrong place when its size is
  not that of the chunks before it (`AgentRetries.LegacyRowIff`).
- Directories that differ only in separators share a file on disk but not its state
  (`FileKeys.DirectoriesShareDiskPath`).

## Model

| member | source | states |
|---|---|---|
| `TransferPlans.ChunksDetermineContent` | ServerUDTC++_v3/FileReceiver.cpp:739-772 | bytes of the right length that hold every planned chunk in place are the whole content: why counting rows is enough to finalize |
| `TransferPlans.PiecePlacement` | AgentUDTC++_v7.2/FileProcessor.cpp:372-395 | each chunk lies inside the content and overlaps no other |
| `TransferPlans.OverlayPiece` | ServerUDTC++_v3/FileReceiver.cpp:541-543 | writing over one chunk's range, with right or wrong bytes, disturbs no other chunk; the right bytes put the chunk in place |
| `ServerSafety.ProceedMeansReceptive` | ServerUDTC++_v3/FileReceiver.cpp:271-385 | a delivery that gets past the completion pre-check meets a file with no finalization in flight, and either replaces or resets it with a chunk zero, or finds only rows of its own transfer |
| `ServerSafety.ProgressSound` | ServerUDTC++_v3/FileReceiver.cpp:471-634 | every stage a delivery can be cut at (failed effect or crash) leaves the file sound: one transfer per file, each success row backed by the right bytes |
| `ServerSafety.EnoughSuccessesAreAll` | ServerUDTC++_v3/FileReceiver.cpp:655-665 | pigeonhole: as many success rows as the plan has chunks are exactly the rows 0..n-1 |
| `ServerSafety.CountingIffComplete` | ServerUDTC++_v3/FileReceiver.cpp:644-672 | the count test of the completion accounting, with a fixed or an adaptive total, succeeds exactly when every chunk of the plan is stored |
| `ServerSafety.FinalizableIffComplete` | ServerUDTC++_v3/FileReceiver.cpp:739-772 | the finalizer's checks (count against the largest declared total, consecutive numbers) pass exactly when the rows are complete, so no early return leaves the flag set for a planned transfer |
| `ServerSafety.CompleteMeansContent` | ServerUDTC++_v3/FileReceiver.cpp:739-799 | a file whose rows are complete holds exactly the sent bytes |
| `ServerSafety.AcceptedSound` | ServerUDTC++_v3/FileReceiver.cpp:386-700 | one delivery keeps the per-file invariant, whatever it carries and wherever it is cut, and raises the flag only when the rows are complete |
| `ServerSafety.FinalizedSound` | ServerUDTC++_v3/FileReceiver.cpp:720-829 | a committed finalization records the transfer the rows belong to, with its content, and clears rows and flag; a rolled-back one only clears the flag; an exception out of the rollback changes nothing |
| `ServerSafety.RowsShareTransfer` | ServerUDTC++_v3/FileReceiver.cpp:318-345 | all rows of a file carry the active transfer id |
| `ServerRuns.DeliverIsLocal` | ServerUDTC++_v3/FileReceiver.cpp:211-701 | a delivery changes only the file it acts on, and that file as the per-file function says |
| `ServerRuns.StepKeepsInvariant` | ServerUDTC++_v3/FileReceiver.cpp:211-829 | every event keeps the server invariant: deliveries cut anywhere, finalizations however they end, connections taking queue places, the pool stopping, crashes and start-ups |
| `ServerRuns.RecordedMeansDelivered` | ServerUDTC++_v3/FileReceiver.cpp:211-829 | end-to-end safety: in every reachable state a recorded file is byte for byte the content of the recorded transfer |
| `ServerRuns.NoMixing` | ServerUDTC++_v3/FileReceiver.cpp:318-345 | in every reachable state all rows of a file carry one transfer id and never coexist with a completion record |
| `ServerRuns.FrozenWhileFinalizing` | ServerUDTC++_v3/FileReceiver.cpp:373-384 | over runs: until its finalization is run or forgotten by a restart, a file with its flag up keeps rows, record, bytes and flag, whatever is delivered |
| `ServerRuns.RecordIsFinal` | ServerUDTC++_v3/FileReceiver.cpp:271-313 | over runs: a recorded file that no chunk reaches under the Overwrite policy keeps its record and bytes through every event, restarts included |
| `ServerDurability.AcknowledgedIsHeld` | ServerUDTC++_v3/FileReceiver.cpp:420-429 | a chunk answered Stored or JustCompleted is a success row of its transfer, or the transfer is recorded |
| `ServerDurability.StepKeepsHeld` | ServerUDTC++_v3/FileReceiver.cpp:471-497 | a held chunk stays held through every event, crashes included, unless a chunk zero of another transfer resets the file |
| `ServerDurability.AcknowledgedStaysHeld` | ServerUDTC++_v3/FileReceiver.cpp:597-700 | durability over runs: once acknowledged, a chunk is held in every later state until a chunk zero of a different transfer arrives |
| `ServerDurability.RestartRaisesFlags` | ServerUDTC++_v3/FileReceiver.cpp:1036-1066 | after a restart the flag is up for exactly the unrecorded files whose success rows are complete |
| `ServerDurability.RestartQueues` | ServerUDTC++_v3/FileReceiver.cpp:1047-1070 | the tasks queued by a restart are the due files in listing order, cut off where the queue is full |
| `ServerDurability.RestartRecovers` | ServerUDTC++_v3/FileReceiver.cpp:1056-1076 | the queue gets a task for every due file and no flag is left without its task exactly when the queue has room for all of them |
| `ServerDurability.AllHeldIsDelivered` | ServerUDTC++_v3/FileReceiver.cpp:1023-1078 | once every chunk of a transfer is held, a restart with queue room leaves the file recorded with its content, or a task that records it |
| `ServerDurability.OrphanFlagIsStuck` | ServerUDTC++_v3/FileReceiver.cpp:1056-1076 | over runs: a flag whose task the full queue refused at start-up stays up until the next restart; the file stays as it is and every delivery for it is answered AlreadyCompleted or Failed |
| `ServerSafety.AccountedSound` | ServerUDTC++_v3/FileReceiver.cpp:636-700 | the completion accounting of a file that has just taken a chunk keeps it sound, and answers JustCompleted exactly when every chunk of its transfer is stored |
| `ServerSafety.CompletedIffAllStored` | ServerUDTC++_v3/FileReceiver.cpp:636-700 | a newly stored chunk whose accounting can be read is answered JustCompleted exactly when every chunk of its transfer is now stored; the flag then goes up exactly when the thread pool took the task |
| `ServerDurability.JustCompletedMeans` | ServerUDTC++_v3/FileReceiver.cpp:660-700 | after the answer JustCompleted the file is complete, and is left without flag and task exactly when the shared thread pool is stopped or its queue, waiting client connections included, is full |
| `ServerDurability.UnqueuedIsStuck` | ServerUDTC++_v3/FileReceiver.cpp:676-690 | over runs: a complete file without flag and task stays so until a start-up or a chunk zero of another transfer; its own chunks, sent again, are answered Stored or Failed and queue nothing |
| `ServerTasks.AcceptedUnserved` | ServerUDTC++_v3/FileReceiver.cpp:386-700 | one delivery past the pre-check leaves a file complete without a task exactly when its chunk is the last one missing and the accounting cannot be read or the pool refuses, or when the file was so before and is not emptied |
| `ServerTasks.UnservedIff` | ServerUDTC++_v3/FileReceiver.cpp:642-690 | under every event, a file is complete without a task afterwards exactly when the event abandons it (last chunk without room or with failed accounting, uncommitted finalization, start-up without room or without a listing) or it was so before and is not relieved; its flag is up then exactly after a start-up without room or an exception that escapes the finalization |
| `ServerTasks.UnservedRunIff` | ServerUDTC++_v3/FileReceiver.cpp:774-829 | over runs: a complete file lacks its task exactly when some event abandoned it and none since relieved it |
| `ServerProgress.DeliveryOutcome` | ServerUDTC++_v3/FileReceiver.cpp:262-429 | how every delivery whose pre-check can be read is answered: AlreadyCompleted by a settled file and Failed for a foreign chunk, both changing nothing; everywhere else a stored chunk is acknowledged again, and a new one is held and acknowledged exactly when it is undamaged, all its effects work and the file fits the size limit and the client's budget; the answer is JustCompleted exactly for the last missing chunk |
| `ServerProgress.AcknowledgedChangeIsWithinLimits` | ServerUDTC++_v3/FileReceiver.cpp:897-923 | whatever the packet claims, an acknowledged delivery that changes anything is undamaged, within the size limit and within its own declared size |
| `ServerProgress.FreshNameLasts` | ServerUDTC++_v3/FileReceiver.cpp:246-254 | over runs: after chunk zero gave a taken name a fresh one, every later chunk of that name under Versioned acts on the fresh one until it completes the file, a start-up, or another fresh name |
| `ServerProgress.OwnNameOtherwise` | ServerUDTC++_v3/FileReceiver.cpp:246-256 | over runs: chunk zero, chunks under other policies, and chunks of names given no fresh one since the last start-up act on their own name |
| `ServerProgress.CompletionEndsName` | ServerUDTC++_v3/FileReceiver.cpp:696-699 | the delivery that completes a renamed transfer ends its fresh name |
| `ServerProgress.StartUpForgetsNames` | ServerUDTC++_v3/FileReceiver.cpp:246-254 | after a start-up the next chunks of a renamed transfer meet the recorded original and are answered AlreadyCompleted, although nothing of theirs is held there |
| `ServerProgress.CounterAfterDelivery` | ServerUDTC++_v3/FileReceiver.cpp:655-662 | a delivery that stores a chunk without completing the file leaves the counter at the number of missing chunks once the total is known, and the completing one leaves none |
| `ServerProgress.CounterAfterRestart` | ServerUDTC++_v3/FileReceiver.cpp:1033-1048 | after a start-up that lists the files the counters are the numbers of missing chunks of exactly the unfinished files whose total is known |
| `ServerProgress.WholeTransferWorks` | ServerUDTC++_v3/FileReceiver.cpp:211-701 | a transfer sent whole, in order, to a free name, within all limits and with all effects working: every chunk is acknowledged, the last completes the file, and it lacks its task exactly when the shared queue is full or the pool stopped |
| `ServerDurability.AlreadyCompletedMeans` | ServerUDTC++_v3/FileReceiver.cpp:271-384 | AlreadyCompleted changes nothing; every chunk of the sent transfer is held exactly when it is the recorded one or the one being finalized, and then the bytes are its content |
| `ServerDurability.DeliveryStrands` | ServerUDTC++_v3/FileReceiver.cpp:346-362 | a delivery past the pre-check leaves a file without rows and record but with bytes exactly when its digest holds and it is cut either after the transaction that empties a replaced or reset file and before the old output is removed, or after a new output exists and before its first row does |
| `ServerDurability.StrandedForEver` | ServerUDTC++_v3/FileReceiver.cpp:346-362 | over runs: such a file keeps its bytes under every policy and across restarts, and every delivery that acts on it is answered AlreadyCompleted, or Failed when a read of the pre-check fails |
| `ServerBudget.StepWithinBudget` | ServerUDTC++_v3/FileReceiver.cpp:877-990 | every event keeps each client's total file size within the configured maximum |
| `ServerBudget.RunWithinBudget` | ServerUDTC++_v3/FileReceiver.cpp:831-990 | starting within the budget, every reachable state is within it |
| `ServerBudget.MixedPlansLoseBytes` | ServerUDTC++_v3/FileReceiver.cpp:420-429 | why one plan per transfer id is assumed: two re-splits of one content under one id, mixed by chunk number, are recorded with wrong bytes |
| `ServerDatabase.ListingCounts` | ServerUDTC++_v3/Database.cpp:803-832 | a listing of the success rows has as many entries as there are success rows and the same numbers |
| `ServerDatabase.MaxTotalUnique` | ServerUDTC++_v3/Database.cpp:656-678 | the largest declared total is determined by the rows |
| `ServerDatabase.Database.InsertChunk` | ServerUDTC++_v3/Database.cpp:576-620 | inserts a pending row unless the number is there, which is refused and changes nothing; the first row of a file becomes its lowest |
| `ServerDatabase.Database.UpdateChunkStatus` | ServerUDTC++_v3/Database.cpp:622-654 | marks the row success and touches nothing else |
| `ServerDatabase.Database.AddReconstructedFile` | ServerUDTC++_v3/Database.cpp:834-865 | records the transfer unless the file is already recorded (INSERT OR IGNORE) |
| `ServerDatabase.Database.DeleteReconstructedFile` | ServerUDTC++_v3/Database.cpp:867-893 | removes one file's record |
| `ServerDatabase.Database.DeleteChunksByFile` | ServerUDTC++_v3/Database.cpp:895-926 | removes one file's rows |
| `ServerDatabase.Database.GetTotalChunkCount` | ServerUDTC++_v3/Database.cpp:656-678 | the largest declared total over the file's rows, 0 without rows |
| `ServerDatabase.Database.GetChunksForFile` | ServerUDTC++_v3/Database.cpp:803-832 | the success rows in ascending order of number, each once |
| `FileReceiving.LeftoverStep` | ServerUDTC++_v3/FileReceiver.cpp:507-587 | what failed write attempts leave behind is hidden by the next full write over the same range |
| `FileReceiving.ListingFinalizable` | ServerUDTC++_v3/FileReceiver.cpp:739-772 | the listing loop's checks amount to: the success rows are exactly 0..n-1 |
| `FileReceiving.FileReceiver.constructor` | ServerUDTC++_v3/FileReceiver.cpp:1023-1090 | starting the receiver on the durable state is the start-up step of the machine, with the query for unfinished files succeeding or not |
| `FileReceiving.FileReceiver.CalculateDirectorySize` | ServerUDTC++_v3/FileReceiver.cpp:831-875 | the walk sums the client's files it meets, saturating at the 64-bit maximum, which is also the answer when an entry cannot be looked at or is a link |
| `FileReceiving.MetUsage` | ServerUDTC++_v3/FileReceiver.cpp:848-874 | a walk that ends early, as one whose advance fails does, counts the client's total exactly when all it misses is empty, and less otherwise |
| `FileReceiving.OverspendsIff` | ServerUDTC++_v3/FileReceiver.cpp:877-895 | some new file is then admitted beyond the client's limit exactly when the walk missed a file that is not empty |
| `FileReceiving.FileReceiver.HasClientStorageBudget` | ServerUDTC++_v3/FileReceiver.cpp:877-895 | for every limit: yes exactly when the walk could look at all it met, its sum is below the 64-bit maximum, and sum plus addition fit the limit |
| `FileReceiving.FileReceiver.WriteWithRetry` | ServerUDTC++_v3/FileReceiver.cpp:504-594 | five attempts: success exactly when one is clean; the bytes are the data over the old file, or what the last spoiled attempt left |
| `FileReceiving.FileReceiver.ClearForReplacement` | ServerUDTC++_v3/FileReceiver.cpp:471-497 | rows, and the record when replacing, go in one transaction; then flag and output file |
| `FileReceiving.FileReceiver.PrepareOutputFileForChunk` | ServerUDTC++_v3/FileReceiver.cpp:897-984 | a new output file is created only within the limits and preallocated to the transfer's size |
| `FileReceiving.FileReceiver.StoreChunk` | ServerUDTC++_v3/FileReceiver.cpp:437-634 | replacement, admission, write and rows together move the file to the stage the delivery reaches |
| `FileReceiving.FileReceiver.AccountForChunk` | ServerUDTC++_v3/FileReceiver.cpp:636-701 | the completion accounting after a stored chunk, with reads that throw and a task the shared pool refuses |
| `FileReceiving.FileReceiver.CheckCompletion` | ServerUDTC++_v3/FileReceiver.cpp:262-385 | the pre-check's verdict on the current tables and flag when its reads succeed |
| `FileReceiving.FileReceiver.ReceiveChunk` | ServerUDTC++_v3/FileReceiver.cpp:211-701 | the whole of receiveChunk, exceptions included, is one delivery step of the machine, with that step's answer |
| `FileReceiving.FileReceiver.ExpectedTotal` | ServerUDTC++_v3/FileReceiver.cpp:742-745 | the loop computes the largest declared total of the listed rows |
| `FileReceiving.FileReceiver.InSequence` | ServerUDTC++_v3/FileReceiver.cpp:760-770 | the loop decides whether the listed numbers are 0, 1, 2, ... |
| `FileReceiving.FileReceiver.TryReconstructFile` | ServerUDTC++_v3/FileReceiver.cpp:720-829 | one run of the finalization task is the finalization function on the file, however it ends |
| `FileReceiving.FileReceiver.RunTask` | ServerUDTC++_v3/FileReceiver.cpp:682-685 | a worker taking a queued task and running it is the machine's finalization step |
| `FileReceiving.FileReceiver.LoadPendingCounter` | ServerUDTC++_v3/FileReceiver.cpp:1033-1076 | reloading one in-progress file: counter, or flag and task |
| `FileReceiving.FileReceiver.LoadPendingCounters` | ServerUDTC++_v3/FileReceiver.cpp:1023-1085 | reloading all listed files is the machine's recovery |
| `FileSplit.OptimalChunkSize` | AgentUDTC++_v7.2/MemoryManager.cpp:37-81 | the chosen size is within 32 KiB..4 MiB; the configured one when it is in range and the file fits the memory or the memory is unknown, the file size when none is configured, and else the given share of the memory to the nearest byte |
| `FileSplit.SplitTiles` | AgentUDTC++_v7.2/FileProcessor.cpp:302-376 | tiling: for every non-empty file and any provider, the chunks are contiguous, disjoint, cover the file, and are at most 4 MiB and, but for the last, at least 32 KiB |
| `FileSplit.ChunkSizes` | AgentUDTC++_v7.2/FileProcessor.cpp:326-352 | every chunk's size is the configured one in fixed mode, else what the provider asks for there, within 32 KiB and 4 MiB and cut at the file's end |
| `FileSplit.FixedTotalIsCount` | AgentUDTC++_v7.2/FileProcessor.cpp:307-311 | fixed mode: the total declared up front is the number of chunks emitted, exactly when that number fits a 32-bit int |
| `FileSplit.UnclampedTotalDiffers` | AgentUDTC++_v7.2/MemoryManager.cpp:62-78 | without the memory manager's clamp the declared total and the emitted count differ |
| `FileSplit.EmittedTotalIsDeclared` | AgentUDTC++_v7.2/FileProcessor.cpp:372-376 | the total in each chunk is the plan's: the count in every chunk, or in adaptive mode on exactly the last |
| `FileSplit.ReadChunk` | AgentUDTC++_v7.2/FileProcessor.cpp:326-384 | choosing, reading and describing one chunk yields the plan's next chunk |
| `FileSplit.HandOver` | AgentUDTC++_v7.2/FileProcessor.cpp:386-430 | one callback and row insertion: how the round ends, what is stored, what was handed over |
| `FileSplit.SplitRound` | AgentUDTC++_v7.2/FileProcessor.cpp:326-430 | one round of the loop reads the plan's next chunk, hands it over and stores its row if it is kept |
| `FileSplit.SplitFile` | AgentUDTC++_v7.2/FileProcessor.cpp:288-446 | the loop emits the first chunks of the plan in order and goes on exactly while each has a digest, the callback does not end the file and the row can be stored, a failed send included; it stores exactly the rows of the kept chunks, successes where the send succeeded; success says whether the file was covered or ended |
| `EndToEnd.SplitPassesParserIff` | TransferCore/ChunkPacketParser.cpp:252-275 | every chunk of a split passes the server's parser exactly when the file is at most 100 GiB and is cut into at most 1,000,000 chunks |
| `EndToEnd.EmittedChunksFollowPlan` | AgentUDTC++_v7.2/FileProcessor.cpp:377-413 | an emitted chunk is a planned chunk for the server, and its row stands for the chunk the ledger plans |
| `EndToEnd.HeldArrives` | ServerUDTC++_v3/FileReceiver.cpp:720-829 | with every chunk of a transfer held, the file is recorded with its content or a queued task records it, exactly when it does not lack its task |
| `EndToEnd.SplitIsDelivered` | ServerUDTC++_v3/FileReceiver.cpp:420-429 | every chunk of a split acknowledged in any order and across crashes, nothing superseding it: recorded with exactly the file's bytes, or queued to be, exactly when no event abandoned the complete file without a later one relieving it |
| `EndToEnd.RestartDelivers` | ServerUDTC++_v3/FileReceiver.cpp:1023-1078 | the same chunks acknowledged, a restart with queue room for all due files always leaves it recorded or queued |
| `EndToEnd.SentWholeArrives` | ServerUDTC++_v3/FileReceiver.cpp:211-829 | such a transfer arrives exactly when the thread pool has room for its finalization |
| `EndToEnd.FullySentArrives` | AgentUDTC++_v7.2/Database.cpp:1280-1308 | a file the agent's query reports as fully sent, none of whose chunks a target answered with AlreadyExists, is recorded or queued on that target with exactly its bytes, exactly when the server's run did not abandon it |
| `AgentDatabase.LargestTotal` | AgentUDTC++_v7.2/Database.cpp:1286-1294 | COALESCE(MAX(total_chunk), 0) of a group |
| `AgentDatabase.Database.InsertChunk` | AgentUDTC++_v7.2/Database.cpp:637-684 | inserts a row under the unique index on path and number |
| `AgentDatabase.Database.UpdateChunkStatus` | AgentUDTC++_v7.2/Database.cpp:754-781 | changes the status of the row under that number, if any |
| `AgentDatabase.Database.UpdateChunkRetries` | AgentUDTC++_v7.2/Database.cpp:788-815 | changes the counter of the row under that number, if any |
| `AgentDatabase.Database.DeleteFileChunks` | AgentUDTC++_v7.2/Database.cpp:846-875 | removes the file's rows only |
| `AgentDatabase.Database.AddProcessedFileAndCleanupChunks` | AgentUDTC++_v7.2/Database.cpp:1082-1157 | marks the file processed and removes its rows, both or neither |
| `AgentDatabase.Database.MarkFileAsUnprocessed` | AgentUDTC++_v7.2/Database.cpp:1164-1240 | status 'processing' or 'failed' replaces 'processed'; no row changes |
| `AgentDatabase.Database.LogPermanentlyFailedFile` | AgentUDTC++_v7.2/Database.cpp:1319-1350 | status 'failed' and removal of the file's rows, both or neither |
| `AgentLedger.RunKeepsRowsFollow` | AgentUDTC++_v7.2/Database.cpp:583-684 | in every interleaving of splits, resends and clean-ups the rows are rows of chunks the current split has emitted |
| `AgentLedger.FullySentIsComplete` | AgentUDTC++_v7.2/Database.cpp:1280-1308 | a file reported fully sent has the rows of all its chunks, by pigeonhole |
| `AgentLedger.NoPrefixReported` | AgentUDTC++_v7.2/Database.cpp:1287-1301 | no proper prefix of a running split, fixed or adaptive, is ever reported fully sent, in any interleaving |
| `AgentLedger.AcksOfAll` | AgentUDTC++_v7.2/NetworkManager.cpp:1032-1047 | a broadcast without a refusal was acknowledged by every target |
| `AgentLedger.RunKeepsResendSound` | AgentUDTC++_v7.2/NetworkManager.cpp:447-513 | in every run the chunk being resent was acknowledged by the targets the loop has passed, and while it counts as existing everywhere each of them said so |
| `AgentLedger.ConcludeKeepsAcked` | AgentUDTC++_v7.2/NetworkManager.cpp:504-508 | a late success update keeps success rows acknowledged by every target when the row it finds is that of the listed chunk, or is gone |
| `AgentLedger.StepKeepsAcked` | AgentUDTC++_v7.2/NetworkManager.cpp:447-513 | every other step keeps it too: broadcasts, charges, refusals, a new split, a clean-up |
| `AgentLedger.FullySentIffDelivered` | AgentUDTC++_v7.2/Database.cpp:1280-1308 | in every run whose late success updates find the chunk they resent: the query reports a file exactly when success rows tile it and every configured target acknowledged every chunk of the current split |
| `AgentLedger.CleanUpMeansSent` | AgentUDTC++_v7.2/RadarAgent.cpp:366-386 | the clean-up marks and drops what it listed without asking again: the dropped rows tile the file and every target acknowledged every chunk exactly when the query would still report the file, and always while since the listing no split has begun and the file was not given up |
| `AgentLedger.ProcessedMeans` | AgentUDTC++_v7.2/Database.cpp:1082-1157 | over runs: a file's status is 'processed' exactly when some event marked it and none since set another status; each mark was a clean-up of a listed file (delivered unless a split began or it was given up in between) or the unanimous AlreadyExists of all targets about one chunk; and one that stands is about the current split unless it fell between that split's status write and its deletion of the old rows |
| `AgentLedger.MarkedByStep` | AgentUDTC++_v7.2/Database.cpp:1164-1245 | the status after a step is 'processed' exactly when the step marks the file, or it was before and the step neither opens a split nor records a failure |
| `AgentLedger.AnswersWereHeard` | AgentUDTC++_v7.2/NetworkManager.cpp:1032-1047 | every acknowledgement in the history other than an AlreadyExists was given in some event of the run |
| `AgentRaces.MarkOutlivesOpening` | AgentUDTC++_v7.2/FileProcessor.cpp:230-249 | a clean-up between a split's status write and its deletion of the old rows leaves the status 'processed' over new content no target has |
| `AgentRaces.CleanUpDropsUnsentSplit` | AgentUDTC++_v7.2/RadarAgent.cpp:366-386 | a split of new content between the clean-up's listing and its marking loses the rows of a chunk no target has, and the file counts as processed |
| `AgentRetries.RetryAccounting` | AgentUDTC++_v7.2/NetworkManager.cpp:884-1014 | in every run, new splits during a pass included: a counter is within the cap, and a row at the limit is neither in the pass's listing nor in the next one |
| `AgentRetries.CapWithinDocumented` | AgentUDTC++_v7.2/NetworkManager.cpp:447-475 | the cap, limit + targets * (maxRetries - 1), is within (limit - 1) + maxRetries * targets |
| `AgentRetries.CounterEqualsCharges` | AgentUDTC++_v7.2/Database.cpp:788-815 | unless a pass charges from a listing that a new split has made stale, a row's counter is the number of failures charged since it was inserted while no counter write was lost, and never more |
| `AgentRetries.ChargeExactIff` | AgentUDTC++_v7.2/NetworkManager.cpp:960-1008 | a charge keeps an exact counter exact precisely when the row still has the counter the pass last saw |
| `AgentRetries.CounterNeverDecreases` | AgentUDTC++_v7.2/Database.cpp:788-815 | over runs: between two points without a new split in between, a row present at both has at the later one at least its earlier counter |
| `AgentRetries.RebuildsPlannedChunk` | AgentUDTC++_v7.2/NetworkManager.cpp:380-445 | for a row of a split and an unchanged file, the resend rebuilds offset, bytes, digest, total and transfer id of the first send, and never uses the number * size fallback |
| `AgentRetries.LegacyRowIff` | AgentUDTC++_v7.2/NetworkManager.cpp:395-412 | a row stored without its offset is rebuilt right exactly when its number times its own size is where the chunk starts |
| `AgentRetries.ResendFidelity` | AgentUDTC++_v7.2/NetworkManager.cpp:389-445 | the same over every run, stale listings included: a chunk being resent is a chunk of the split it was listed from, rebuilt from the file as that split read it |
| `AgentRetries.MarkingSound` | AgentUDTC++_v7.2/NetworkManager.cpp:504-508 | marking a late success keeps success rows acknowledged when the row found has the transfer id, digest, offset, size and total that were listed, or is gone; in general exactly when every target has acknowledged the chunk the row stands for |
| `AgentRetries.MismatchMeansNewSplit` | AgentUDTC++_v7.2/NetworkManager.cpp:223-232 | in every run that row can differ only if a split has begun since the pass listed it |
| `AgentRaces.StaleListingReportsUnsentFile` | AgentUDTC++_v7.2/NetworkManager.cpp:223-232 | a pass whose listing outlives a new split of changed content marks the new row, and the file is reported sent though no target acknowledged it |
| `AgentSending.SendChunkToTarget` | AgentUDTC++_v7.2/NetworkManager.cpp:788-881 | the retry loop returns the first answer within the allowed attempts, or a refusal when there is none |
| `AgentSending.SendChunk` | AgentUDTC++_v7.2/NetworkManager.cpp:1017-1066 | the broadcast tries every target until a shutdown, and returns the aggregate; unanimous AlreadyExists cleans the file up |
| `AgentSending.SendPendingChunkToTarget` | AgentUDTC++_v7.2/NetworkManager.cpp:884-1014 | each failed attempt is charged to the row at once and nothing else of it changes; the method is a run of the ledger, its failures are those before the answer or all allowed ones, and it stops only when an attempt saw the shutdown |
| `AgentSending.ResendChunk` | AgentUDTC++_v7.2/NetworkManager.cpp:447-513 | stops only when the shutdown was seen; otherwise the row is failed when a target refuses, the file cleaned up when all say it is there, and the row a success else, as far as the write takes effect, and no other row changes; a run of the ledger |
| `AgentSending.MarkChunkAsFailed` | AgentUDTC++_v7.2/NetworkManager.cpp:279-297 | the counter is raised by one from the listed value, then the status becomes failed unless the first write threw; either write may be lost |
| `AgentSending.ResendListed` | AgentUDTC++_v7.2/NetworkManager.cpp:353-444 | one listed chunk is resent exactly when its range can be worked out, sought and read, and else charged one failure from its listed counter; a failed seek leaves the rest of the file to the next pass; stops only when the shutdown was seen |
| `AgentSending.SendPendingFailedChunks` | AgentUDTC++_v7.2/NetworkManager.cpp:209-513 | the pass over one file is a run of the ledger, on rows and status; it stops only when a listed chunk saw the shutdown; and when every listed chunk is answered by all targets, not all with AlreadyExists, all of them are successes afterwards and nothing else has changed |
| `AgentProgress.PassListsPending` | AgentUDTC++_v7.2/Database.cpp:689-715 | between passes, a pass lists exactly the rows that are not successes and below the limit, as they are |
| `AgentProgress.AnsweredPassIsReported` | AgentUDTC++_v7.2/Database.cpp:1280-1308 | after such a pass a file with the rows of all its chunks and none given up is reported as fully sent |
| `AgentProgress.SplitIsReported` | AgentUDTC++_v7.2/FileProcessor.cpp:288-446 | from every state, a split whose chunks all targets acknowledge ends with the file reported as fully sent |
| `AgentProgress.CleanUpFinishes` | AgentUDTC++_v7.2/RadarAgent.cpp:366-386 | between passes a fully sent file is marked processed and its rows are dropped |
| `BigEndian.U32Decodes` | TransferCore/ChunkPacketParser.cpp:56-67 | the four bytes of an unsigned 32-bit integer decode to it |
| `BigEndian.U32Encodes` | TransferCore/SecurePacket.cpp:35-40 | every four bytes are the encoding of what they decode to |
| `BigEndian.U64Decodes` | TransferCore/ChunkPacketParser.cpp:69-83 | the two halves of an unsigned 64-bit integer decode to it |
| `BigEndian.U64Encodes` | TransferCore/SecurePacket.cpp:42-45 | every eight bytes are the encoding of what they decode to |
| `BigEndian.EncodedValues` | TransferCore/ChunkPacketParser.cpp:56-80 | encoded integers are the big-endian digits of their value |
| `BigEndian.AsInt32` | TransferCore/ChunkPacketParser.cpp:246-260 | the cast to int wraps, and casting back restores the value |
| `BigEndian.ReadUint32` | TransferCore/ChunkPacketParser.cpp:46-67 | reads inside the buffer or fails, advancing the offset by four |
| `BigEndian.ReadUint64` | TransferCore/ChunkPacketParser.cpp:69-83 | reads inside the buffer or fails, advancing the offset by eight |
| `PathNames.Segments` | TransferCore/ChunkPacketParser.cpp:124-129 | path segments are non-empty and contain no separator |
| `ChunkPacket.ParseUndoesSerialize` | TransferCore/ChunkPacketParser.cpp:133-331 | parsing the serialization of any message within the parser's bounds returns that message, negative chunk numbers included |
| `ChunkPacket.SerializeUndoesParse` | TransferCore/ChunkPacketParser.cpp:133-331 | any buffer the parser accepts is byte for byte the serialization of its result, which is within bounds |
| `ChunkPacket.WireUnique` | AgentUDTC++_v7.2/NetworkManager.cpp:1070-1202 | no two messages share a wire image |
| `ChunkPacket.WireLayout` | AgentUDTC++_v7.2/NetworkManager.cpp:1070-1110 | the packet field by field: total length, prefixed names, numbers, offset and size, digest and data |
| `ChunkPacket.AcceptedIffInBounds` | TransferCore/ChunkPacketParser.cpp:133-331 | the parser accepts a serialized message exactly when it is within bounds, and then returns it |
| `ChunkPacket.InBoundsFits` | TransferCore/ChunkPacketParser.h:13-16 | every message within bounds fits the packet limit and every length prefix |
| `ChunkPacket.PutField` | AgentUDTC++_v7.2/NetworkManager.cpp:1107-1114 | a length prefix and the bytes, without touching what is before |
| `ChunkPacket.Serialize` | AgentUDTC++_v7.2/NetworkManager.cpp:1070-1202 | the buffer filled at an advancing offset is the message's wire image |
| `ChunkPacket.ReadField` | TransferCore/ChunkPacketParser.cpp:158-178 | a length within limits and that many bytes, never beyond the buffer |
| `ChunkPacket.Parse` | TransferCore/ChunkPacketParser.cpp:133-331 | the parser computes the parsing function, and accepts exactly the wire images of messages within bounds |
| `SecureEnvelope.FromHexUndoes` | TransferCore/SecurePacket.cpp:97-120 | decoding undoes hexadecimal encoding |
| `SecureEnvelope.ToHexUndoes` | TransferCore/SecurePacket.cpp:97-120 | encoding undoes decoding of lowercase hexadecimal |
| `SecureEnvelope.EncodeHex` | TransferCore/SecurePacket.cpp:111-120 | the loop computes the encoding |
| `SecureEnvelope.DecodeHex` | TransferCore/SecurePacket.cpp:97-109 | the loop computes the decoding |
| `SecureEnvelope.WireStartsWithHeader` | TransferCore/SecurePacket.cpp:513-533 | the receiver authenticates exactly the 56 header bytes the sender did; the content is the plaintext length plus 80 |
| `SecureEnvelope.WireLayout` | TransferCore/SecurePacket.cpp:509-541 | the envelope field by field: length, magic, version 2, lengths, sequence, session id, nonce, tag, ciphertext |
| `SecureEnvelope.ParseUndoesWire` | TransferCore/SecurePacket.cpp:272-355 | parsing a built packet returns its envelope |
| `SecureEnvelope.WireUndoesParse` | TransferCore/SecurePacket.cpp:272-355 | a packet that parses is byte for byte the wire image of its envelope |
| `SecureEnvelope.DecryptUndoesEncrypt` | TransferCore/SecurePacket.cpp:487-569 | decrypting what was encrypted for a session returns plaintext and sequence number, with exactly the declared overhead |
| `SecureEnvelope.DecryptedMeans` | TransferCore/SecurePacket.cpp:542-569 | whatever is accepted is one envelope of the expected session, opened under exactly that envelope's header, and is accepted in no other session under any key |
| `SecureEnvelope.ControlRoundTrip` | TransferCore/SecurePacket.cpp:397-421 | a control message passes the receiver's length limit exactly when it is of legal size, and then reads back |
| `SecureEnvelope.ChunkLimitExact` | ServerUDTC++_v3/ClientHandler.cpp:354-361 | chunk packets whose size fits an int can be encrypted, and the server's limit admits exactly those of at most the packet limit with the prefix counted; every in-bounds chunk is below it |
| `SecureEnvelope.BuildHeader` | TransferCore/SecurePacket.cpp:513-524 | appending the fields yields the header |
| `SecureEnvelope.EncryptPacket` | TransferCore/SecurePacket.cpp:487-538 | encrypts exactly when plaintext, session id and number are admissible, and builds the sealed envelope's wire image |
| `SecureEnvelope.ParseEnvelope` | TransferCore/SecurePacket.cpp:272-336 | the parser at an advancing offset computes the parsing function |
| `SecureEnvelope.DecryptPacket` | TransferCore/SecurePacket.cpp:542-569 | decryption computes the decrypting function |
| `SecureSession.AcceptedIsPrefix` | ServerUDTC++_v3/ClientHandler.cpp:381-394 | however the network behaves, the accepted packets are a prefix of the packets the peer encrypted in that direction, and no counter leaves the 64-bit range |
| `SecureSession.AcceptedIff` | AgentUDTC++_v7.2/UDTConnection.cpp:444-452 | an authentic packet is accepted exactly when it is the next one encrypted and no number was lost before it; every number the sender can issue is one the receiver can accept |
| `SecureSession.ConnectedIff` | ServerUDTC++_v3/ClientHandler.cpp:381-394 | the receiver is connected exactly while it has accepted every packet that arrived |
| `SecureSession.SendsAreLogged` | AgentUDTC++_v7.2/UDTConnection.cpp:434-442 | short of the largest number every send takes the next one, and exactly the encrypted ones are logged, in order |
| `SecureSession.InTurnIsAccepted` | ServerUDTC++_v3/ClientHandler.cpp:381-394 | when every packet arrives in turn and no number is lost, everything that arrives is accepted and is exactly what was sent |
| `SecureSession.ReflectedPacket` | TransferCore/SecurePacket.cpp:513-533 | the header names no direction: a packet sent back to its sender is accepted there exactly when its number is the expected one, which is why authenticity is assumed per direction |
| `SecureSession.ReflectionBreaksPrefix` | TransferCore/SecurePacket.cpp:513-533 | the first packet a side sends, reflected to it at once, is accepted though the peer has encrypted nothing |
| `SecureSession.LostNumberEndsChannel` | ServerUDTC++_v3/ClientHandler.cpp:527-541 | a number used up by a failed encryption before the next packet ends the channel: nothing is accepted again |
| `SecureSession.Endpoint.SetSecureSessionId` | AgentUDTC++_v7.2/UDTConnection.cpp:425-432 | a non-empty id restarts both counters; an empty one is refused |
| `SecureSession.Endpoint.TakeNextSecureOutboundSequence` | AgentUDTC++_v7.2/UDTConnection.cpp:434-442 | issues the next number once, never the largest one |
| `SecureSession.Endpoint.AcceptSecureInboundSequence` | AgentUDTC++_v7.2/UDTConnection.cpp:444-452 | accepts exactly the expected number and moves on by one |
| `SecureSession.Endpoint.SendPacket` | ServerUDTC++_v3/ClientHandler.cpp:522-541 | sending is the channel's send step; it succeeds exactly when a number is left and the plaintext can be encrypted, and the packet decrypts to plaintext and number |
| `SecureSession.Endpoint.ReceivePacket` | ServerUDTC++_v3/ClientHandler.cpp:544-598 | receiving is the channel's arrival step: decrypt, check the number, or close |
| `PoolMachine.AcquiredConserves` | AgentUDTC++_v7.2/UDTConnectionPool.cpp:584-606 | discarding dead idle entries keeps conservation, and a slot is free whenever the queue runs empty |
| `PoolMachine.StepConserves` | AgentUDTC++_v7.2/UDTConnectionPool.cpp:556-873 | every lock-held step of every thread keeps the pool invariant, steps left by an exception included |
| `PoolMachine.PoolConservation` | AgentUDTC++_v7.2/UDTConnectionPool.cpp:556-873 | under every interleaving before draining: current size = idle + checked out + on the way back or out + held by keep-alive + being created + lost to exceptions, at most the maximum; zero after draining; giving back twice changes nothing |
| `PoolMachine.UnreachableBranches` | AgentUDTC++_v7.2/UDTConnectionPool.cpp:657-659 | the should-not-happen fallback of acquire is never reached, the pool is never overbooked, and no decrement meets a zero |
| `PoolMachine.AcquireOutcome` | AgentUDTC++_v7.2/UDTConnectionPool.cpp:575-640 | what acquire gives in every reachable state before shutdown: the first live idle connection with the dead ones before it counted out; with none alive, a time-out exactly when the queue is empty and existing, nascent and lost connections fill the pool, else giving up on a late shutdown, waiting for a keep-alive pass, or a reserved slot |
| `PoolMachine.GiveBackOutcome` | AgentUDTC++_v7.2/UDTConnectionPool.cpp:672-715 | a connection given back alive before shutdown joins the end of the queue and stays counted; any other is counted out |
| `PoolMachine.OnePlaceEach` | AgentUDTC++_v7.2/UDTConnectionPool.cpp:78-89 | no connection is idle twice, or idle while checked out or probed |
| `PoolMachine.LostByStep` | AgentUDTC++_v7.2/UDTConnectionPool.cpp:584-654 | what a step loses: one entry when acquire throws over one it popped, one slot when a creation throws, every entry a throwing pass held, or those it had not yet returned; something exactly when one of these throws |
| `PoolMachine.CountExactIff` | AgentUDTC++_v7.2/UDTConnectionPool.cpp:637-654 | the count is exact exactly when no exception left acquire, a creation or a keep-alive pass at one of these points |
| `PoolMachine.LossExhaustsPool` | AgentUDTC++_v7.2/UDTConnectionPool.cpp:575-580 | once the maximum is lost, nothing is idle or checked out and every acquire times out |
| `PoolMachine.StrandedIff` | AgentUDTC++_v7.2/UDTConnectionPool.cpp:672-683 | after draining, a connection can end up in the queue exactly when a release had passed its shutdown test but not yet pushed |
| `ConnectionPool.UDTConnectionPool.AcquireLocked` | AgentUDTC++_v7.2/UDTConnectionPool.cpp:575-640 | the lock-held part of acquire, with both shutdown tests and an exception over a popped entry, is the machine's acquire step, with its outcome |
| `ConnectionPool.UDTConnectionPool.CreateFailed` | AgentUDTC++_v7.2/UDTConnectionPool.cpp:647-654 | a failed creation gives its slot back |
| `ConnectionPool.UDTConnectionPool.Release` | AgentUDTC++_v7.2/UDTConnectionPool.cpp:672-694 | release pushes the connection to the back of the queue, or counts it out during shutdown |
| `ConnectionPool.UDTConnectionPool.HandleDeadConnection` | AgentUDTC++_v7.2/UDTConnectionPool.cpp:704-715 | a dead connection is counted out once |
| `ConnectionPool.UDTConnectionPool.TakeSnapshot` | AgentUDTC++_v7.2/UDTConnectionPool.cpp:756-769 | the pass takes the whole queue |
| `ConnectionPool.UDTConnectionPool.Probe` | AgentUDTC++_v7.2/UDTConnectionPool.cpp:780-812 | one entry survives or is about to be counted out; the in-flight counter follows |
| `ConnectionPool.UDTConnectionPool.ReturnSurvivors` | AgentUDTC++_v7.2/UDTConnectionPool.cpp:826-844 | the survivors go back in order unless shutdown has begun |
| `ConnectionPool.UDTConnectionPool.PerformKeepAlivePass` | AgentUDTC++_v7.2/UDTConnectionPool.cpp:751-844 | a pass that nothing interrupts is a run of the machine and leaves exactly the living connections in order |
| `ConnectionPool.UDTConnectionPool.Shutdown` | AgentUDTC++_v7.2/UDTConnectionPool.cpp:847-873 | the first shutdown empties the queue and zeroes the count; later calls change nothing |
| `ConnectionPool.PooledConnection.Move` | AgentUDTC++_v7.2/UDTConnectionPool.cpp:49-52 | moving hands over the connection and silences the old wrapper |
| `ConnectionPool.PooledConnection.Release` | AgentUDTC++_v7.2/UDTConnectionPool.cpp:78-89 | a wrapper gives its connection back at most once: to the end of the queue when it is connected and no shutdown began, else counted out |
| `ThreadPools.StepKeepsOrderly` | TransferCore/ThreadPool.cpp:39-145 | every step keeps: the queue is what was accepted and not dequeued, and each dequeued task is finished or with exactly one worker |
| `ThreadPools.BoundedAndFair` | TransferCore/ThreadPool.cpp:39-58 | under every interleaving the queue is within capacity and tasks are dequeued in acceptance order |
| `ThreadPools.AllRanIff` | TransferCore/ThreadPool.cpp:112-145 | every accepted task has run exactly once precisely when the queue is empty and no worker is running |
| `ThreadPools.StopRunsEverything` | TransferCore/ThreadPool.cpp:61-89 | when the stop call that stopped the pool returns, every accepted task has run exactly once and none is accepted any more |
| `ThreadPools.SecondStopReturnsEarly` | TransferCore/ThreadPool.cpp:66-69 | a second stop call returns at once, with a task still queued |
| `ThreadPools.ThreadPool.Create` | TransferCore/ThreadPool.cpp:11-31 | a pool needs a worker; the default capacity is 64 tasks per worker |
| `ThreadPools.ThreadPool.AddTask` | TransferCore/ThreadPool.cpp:39-58 | refused exactly when stopped or full, otherwise queued last |
| `ThreadPools.ThreadPool.NextTask` | TransferCore/ThreadPool.cpp:112-132 | a worker takes the oldest task, or returns when stopped and empty |
| `ThreadPools.ThreadPool.BeginStop` | TransferCore/ThreadPool.cpp:61-76 | only the call that makes the transition goes on to join |
| `ThreadPools.ThreadPool.JoinWorkers` | TransferCore/ThreadPool.cpp:78-86 | joining all workers means all accepted tasks have run once |
| `FileKeys.UnescapeUndoes` | ServerUDTC++_v3/ClientHandler.cpp:36-46 | the client-id escaping is uniquely decodable |
| `FileKeys.EscapedDots` | ServerUDTC++_v3/ClientHandler.cpp:48-50 | only the ids '.' and '..' escape to dot names |
| `FileKeys.OrdinaryIdKept` | ServerUDTC++_v3/ClientHandler.cpp:30-53 | an id of letters, digits, '-', '.' and '@' that is no dot name is kept as it is behind the prefix |
| `FileKeys.NamespacesSeparate` | ServerUDTC++_v3/ClientHandler.cpp:30-53 | two clients share a namespace exactly when they present the same id, or both fall back (empty, '.' or '..') from the same address |
| `FileKeys.NamespaceShape` | ServerUDTC++_v3/ClientHandler.cpp:30-53 | a namespace is one path segment without separator or bar |
| `FileKeys.BuildAuthenticatedClientNamespace` | ServerUDTC++_v3/ClientHandler.cpp:30-53 | the loop computes the namespace |
| `FileKeys.KeysSeparate` | ServerUDTC++_v3/FileReceiver.cpp:71-74 | the reconstruction key determines client, directory and file name, given the parser's file-name rules |
| `FileKeys.DiskPathParts` | ServerUDTC++_v3/FileReceiver.cpp:217-237 | the path on disk is the namespace, the directory's segments and the file name |
| `FileKeys.OrdinaryPathsAreAdmitted` | TransferCore/ChunkPacketParser.cpp:89-131 | names of letters, digits, '-', '_' and '.', not of dots alone, are admitted as file names up to 255 bytes and joined as directories up to 4096, whose segments they are |
| `FileKeys.PathStaysInside` | TransferCore/ChunkPacketParser.cpp:89-131 | a file the parser admits lies inside its client's directory: its path resolves to itself, from the namespace to the file name |
| `FileKeys.SamePathIff` | ServerUDTC++_v3/FileReceiver.cpp:217-237 | two files share a path on disk exactly when namespace, directory segments and file name agree |
| `FileKeys.CanonicalPathsSeparate` | ServerUDTC++_v3/FileReceiver.cpp:217-237 | for directories in the form the agent sends, sharing a path means having the same key |
| `FileKeys.DirectoriesShareDiskPath` | TransferCore/ChunkPacketParser.cpp:110-131 | 'a//b' and 'a\b' pass the parser and share the path of 'a/b' under different keys |
| `HandshakeText.JoinUndoesSplit` | TransferCore/SecurityHandshake.cpp:154-167 | joining the parts gives the text back |
| `HandshakeText.SplitUndoesJoin` | TransferCore/SecurityHandshake.cpp:154-167 | splitting joined separator-free parts gives the parts back |
| `HandshakeText.SplitSpaceSeparated` | TransferCore/SecurityHandshake.cpp:154-167 | the loop computes the split |
| `HandshakeText.SignedChallengeRoundTrip` | TransferCore/SecurityHandshake.cpp:769-794 | the parser accepts exactly the messages the builder builds, and returns what they were built from |
| `HandshakeText.SignedResponseRoundTrip` | TransferCore/SecurityHandshake.cpp:796-841 | the same for signed responses |
| `HandshakeText.CertificateChallengeRoundTrip` | TransferCore/SecurityHandshake.cpp:974-999 | the same for certificate challenges |
| `HandshakeText.CertificateResponseRoundTrip` | TransferCore/SecurityHandshake.cpp:1001-1047 | the same for certificate responses |
| `HandshakeText.SecureSessionRoundTrip` | TransferCore/SecurityHandshake.cpp:718-767 | the same for the session message under a session secret |
| `HandshakeText.SessionMacDetermines` | TransferCore/SecurityHandshake.cpp:93-104 | under a collision-free HMAC the session message fixes session id and secret |
| `HandshakeText.MessageTexts` | TransferCore/SecurityHandshake.cpp:769-811 | the handshake messages written out, field by field |
| `HandshakeTranscripts.TranscriptUnique` | TransferCore/SecurityHandshake.cpp:381-444 | equal transcript texts mean the same handshake, role, client id (which may contain bars) and fields |
| `HandshakeTranscripts.SignedTexts` | TransferCore/SecurityHandshake.cpp:381-408 | the three signed-handshake texts written out, field by field |
| `HandshakeTranscripts.CertifiedTexts` | TransferCore/SecurityHandshake.cpp:410-444 | the three certificate-handshake texts written out, field by field |
| `HandshakeTranscripts.SignedTextsDetermine` | TransferCore/SecurityHandshake.cpp:381-398 | what the client signs determines the server's challenge, the client id, nonce and key; what the server signs determines challenge and response |
| `HandshakeTranscripts.CertifiedTextsDetermine` | TransferCore/SecurityHandshake.cpp:410-432 | the same for the certificate handshake |
| `HandshakeTranscripts.SignedEndsAgree` | TransferCore/SecurityHandshake.cpp:899-916 | both ends of a completed signed handshake derive the same secret, each from its own key and what it read off the wire; the texts the client signs, the server signs and the secret comes from are well formed and pairwise different |
| `HandshakeTranscripts.CertificateEndsAgree` | TransferCore/SecurityHandshake.cpp:1116-1135 | the same for the certificate handshake |
| `HandshakeTranscripts.DerivationInputDeterminesRun` | TransferCore/SecurityHandshake.cpp:400-408 | the key-derivation text of a signed handshake determines the whole run |
| `HandshakeTranscripts.SecretDeterminesRun` | TransferCore/SecurityHandshake.cpp:899-916 | without hash collisions ends with the same secret saw the same messages and agreed on the same value; there is a secret exactly for valid messages and signature |
| `HandshakeTranscripts.CertificateSecretDeterminesRun` | TransferCore/SecurityHandshake.cpp:1116-1135 | the same for the certificate handshake |
| `HandshakeTranscripts.CertificateInputDeterminesRun` | TransferCore/SecurityHandshake.cpp:434-444 | the key-derivation text of a certificate handshake determines the whole run |
| `HandshakeTranscripts.DerivationKindsApart` | TransferCore/SecurityHandshake.cpp:400-444 | no signed handshake derives from the text of a certificate handshake |

## Left out

- Sockets, connection set-up, circuit breaker, adaptive chunk controller, file stability and directory watching: their outcomes are arbitrary inputs of the steps.
- SQLite, its text and its connections: tables are maps with their unique keys, transactions are single updates.
- OpenSSL internals, certificate and revocation checking, the constant-time comparison (modelled as equality), the pre-shared-key challenge messages, the legacy envelope and the plaintext path.
- Configuration, logging, dashboard, heartbeats and the PDF report: no property of the transfer core depends on them.
- Finer interleavings than the assumptions allow, and loss of power.
- Disk-space checks: one of the reasons a delivery may stop at an effect.
- `processed_files` fingerprints and the in-memory list of files to retry: they only decide when a split begins, which is arbitrary here.
- Case-insensitive file systems, trailing dots and blanks in Windows names, and the narrow-string encoding of paths: segments are compared byte for byte.
- What the parser leaves in its output when it fails: callers discard it.
- The pass over several files in one resend: each file's rows are separate, and the pass over one file is the method modelled.
- Chunk numbers beyond the 32-bit int in a split: the code's counter would overflow; numbers here are unbounded while declared totals wrap as the code computes them.
- A short read during a resend, which sends fewer bytes under the stored digest; only an unreadable range is modelled.
- ServerBudget.StepWithinBudget: assumes walks that meet all of a client's files; the code's walk may end early, and `FileReceiving.OverspendsIff` says when that matters.
- A connection's give-back that throws: its wrapper still owns it and its destructor gives it back again, or the process ends there.
- ConnectionPool.UDTConnectionPool.PerformKeepAlivePass: no other thread acts between the lock-held sections of this one method; the sections are separate steps of the machine, where every interleaving is covered.
- ThreadPools.ThreadPool.JoinWorkers: starts when every worker has returned; waiting for them is the Join step of the machine.
- FileSplit.SplitFile: what the callback itself does to the tables is in the ledger's Emit step, not in this method.
