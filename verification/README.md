# Verified model of the xNVMe queue, ring and checksum cores

xNVMe gives one interface to many ways of talking to NVMe storage. This project models, in Dafny, the parts
of it that are algorithms or protocols of their own, and proves what they are for.

* **Asynchronous queues.** The thread-pool queue (`ThreadPool*`) moves request entries between a request
  pool, a submission queue, workers, a completion queue and the batch of a poke. It is a step relation in
  which every critical section, and every byte a worker moves, is one step; the order of steps is left open,
  so what is proved holds for every schedule and every number of workers. The `emu` queue (`EmuQueue`), the
  `posix` queue (`PosixQueue`) and the libaio queue (`LibaioRing`) are classes that update their lists, rings
  and counters in place. All of them stand behind the admission guard of `xnvme_cmd_pass`.
* **Ramdisk executor** (`Ramdisk`, `RamdiskMeaning`, over `Memory`). Disk, buffers and command contexts share
  one memory; a command is the sequence of bytes it moves. `AsyncRamdisk` puts the thread pool on top of it,
  so that "asynchronous equals sequential" is a statement about bytes. A simple copy reads its range
  descriptors from memory when it is executed. `RamdiskMeaning` says of every opcode, in the numbers of the
  NVMe command set and the bytes of memory alone, what memory is afterwards.
* **GPU-resident queue pair** (`GpuRing`, `GpuRounds`, `GpuTheorems`, over `Tape`). Threads of a block share
  a pair of rings, with two barriers a round and phase tags; the controller completes commands in any order,
  as sections 4.1 and 4.6 of the NVM Express Base Specification 1.4 allow.
* **Checksums** (`Register`, `Crc16`, `Crc64`). A division register as an algebra, with CRC-16/T10-DIF and
  the 64-bit NVMe CRC as its two instances.
* **Zone report** (`ZoneReport`). The batched, filtered, bounded scan against a plain filter.
* **Controller references** (`ControllerRefs`) and **CPU masks and lists** (`CpuList`, `CpuSet`).

What the model takes from outside becomes a parameter: kernel answers (`aio_error`, `io_getevents`,
`BLKREPORTZONE`, `io_submit`), the controller's choices, the schedule, destructor results. A completion
callback is a script of submissions; a statement about all scripts is a statement about all callbacks.

Where code and documentation differ, the model follows the code:

* `posix_poke` clamps with a minimum over signed integers; `PosixQueue.LimitIsClamp` says exactly when that
  is the unsigned minimum, and `PosixQueue.LimitNotClamped` gives an input where it is not.
* The header of a partial zone report counts the zones that fit and one more for every batch of 64 that holds
  a match behind them: two hundred zones with room for one are reported as five (`ZoneReport.HeaderOfFive`).
  `ZoneReport.PartialHeader` says when it is what the buffer holds, and `ZoneReport.PartialHeaderOfAll` what
  it is when all zones are asked for. The header-only answer to "all zones" ignores the start zone
  (`ZoneReport.CountOfAll`, `ZoneReport.CountOfAllMisses`).
* The GPU queue compares and adds in 16 bits; `GpuRing.ExpectedIsTag` and `GpuRing.MovedIsNext` give the exact
  conditions, `GpuRing.SumsLeaveSixteenBits` a failing input. A batch as large as the ring is never announced
  (`GpuRing.DoorbellAnnounces`), and its round never ends (`GpuTheorems.FullBatchStrands`); queue creation
  (lib/upcie/xnvme_be_upcie_cuda_gpu.c:35) asks for one slot more than the caller, so that a block as large as
  the requested depth stays below it. Runs are proved for batches smaller than the ring with depth + batch at
  most 65536, which every ring of depth up to 32768 meets
  (`GpuRounds.SmallRingsOk`).
* A libaio event without a context leaves the rest of its batch uncounted; `LibaioRing.Queue.Poke` says when
  the count is right nevertheless, `LibaioRing.CountGoesWrong` gives a batch where it is not.
* `xnvme_be_cref_insert` does not look for duplicates; `ControllerRefs.Table.Insert` says exactly when the
  table stays consistent.

`dafny verify dfyconfig.toml` checks everything.

## Model

| member | source | states |
|---|---|---|
| Memory.InterleavingIsSequential | lib/xnvme_be_cbi_async_thrpool.c:147-154 | byte programs that do not use each other's written bytes leave, in every interleaving, the memory of running them one after the other |
| Memory.StepKeepsConsistent | lib/xnvme_be_cbi_async_thrpool.c:147-154 | one byte moved by one of several independent programs keeps memory explainable from each program's own progress |
| Common.StatusCode | lib/xnvme_be_cbi_async_thrpool.c:155-158 | eight bits of an error number: below 256 and different from it by a multiple of 256 |
| Common.Clamp | lib/xnvme_be_cbi_async_thrpool.c:280-281 | no more than outstanding, no more than a maximum that is not zero, and equal to one of them |
| Ramdisk.CopyMeaning | lib/xnvme_be_ramdisk_sync.c:34-40 | a byte-wise copy between stretches that are apart moves the original bytes and changes nothing else |
| Ramdisk.ZeroMeaning | lib/xnvme_be_ramdisk_sync.c:42-45 | write-zeroes clears exactly its range |
| Ramdisk.CompareMeaning | lib/xnvme_be_ramdisk_sync.c:74-79 | compare leaves memory alone when the bytes agree and otherwise only raises the status |
| Ramdisk.GatherMeaning | lib/xnvme_be_ramdisk_sync.c:102-108 | pieces copied one behind the other are the concatenation of the original pieces |
| Ramdisk.ScatterMeaning | lib/xnvme_be_ramdisk_sync.c:110-116 | a stretch handed out to segments arrives in order, and nothing else changes |
| Ramdisk.VectoredWriteIsContiguous | lib/xnvme_be_ramdisk_sync.c:102-108 | a vectored write leaves the memory of one contiguous write of the concatenated segments |
| Ramdisk.VectoredReadIsContiguous | lib/xnvme_be_ramdisk_sync.c:110-116 | a vectored read hands its segments the bytes of one contiguous read |
| Ramdisk.VectoredRoundTrip | lib/xnvme_be_ramdisk_sync.c:101-131 | writing from one set of segments and reading into another moves the bytes across in order |
| Ramdisk.SimpleCopyMeaning | lib/xnvme_be_ramdisk_sync.c:55-64 | simple copy to a destination apart from its sources leaves there the concatenated original ranges that its descriptors in memory describe, and every other byte unchanged |
| Ramdisk.ProgInBounds | lib/xnvme_be_ramdisk_sync.c:18-87 | a command whose ranges and descriptors lie in memory, as it stands, touches no other memory |
| Ramdisk.FailureMeaning | lib/xnvme_be_cbi_async_thrpool.c:155-160 | a command that fails changes nothing but the status of its context, which becomes the error unless one was set |
| RamdiskMeaning.WriteBlocks | lib/xnvme_be_ramdisk_sync.c:34-36 | opcode 0x01: memory afterwards is memory before with the buffer at byte base + slba * 2^ssw |
| RamdiskMeaning.ReadBlocks | lib/xnvme_be_ramdisk_sync.c:38-40 | opcode 0x02: memory afterwards is memory before with the bytes from base + slba * 2^ssw on in the buffer |
| RamdiskMeaning.WriteFile | lib/xnvme_be_ramdisk_sync.c:47-49 | opcode 0xAC: the same at byte base + slba |
| RamdiskMeaning.ReadFile | lib/xnvme_be_ramdisk_sync.c:51-53 | opcode 0xDC: the same from byte base + slba on |
| RamdiskMeaning.BlockIsFile | lib/xnvme_be_ramdisk_sync.c:34-53 | what is written at a block is read as a file from byte block * 2^ssw on |
| RamdiskMeaning.FileIsBlock | lib/xnvme_be_ramdisk_sync.c:34-53 | what is written as a file at byte block * 2^ssw is read at that block |
| RamdiskMeaning.ClearBlocks | lib/xnvme_be_ramdisk_sync.c:42-45 | opcode 0x08: (nlb + 1) * lba_nbytes bytes from base + slba * 2^ssw on become zero, no others |
| RamdiskMeaning.CompareBlocks | lib/xnvme_be_ramdisk_sync.c:74-79 | opcode 0x05: memory stands, but for a status of zero, which becomes 251 iff block and buffer differ |
| RamdiskMeaning.WriteVectored | lib/xnvme_be_ramdisk_sync.c:101-124 | memory afterwards is memory before with the segments, joined, at the block or byte given |
| RamdiskMeaning.ReadVectored | lib/xnvme_be_ramdisk_sync.c:109-131 | the segments, joined, are what was at the block or byte given, and no byte outside them changes |
| RamdiskMeaning.CopyBlocks | lib/xnvme_be_ramdisk_sync.c:55-64 | opcode 0x19: the ranges told by bytes 8 to 17 of each 32-byte descriptor, joined, stand at base + sdlba * 2^ssw |
| RamdiskMeaning.NothingDone | lib/xnvme_be_ramdisk_sync.c:66-72 | flushes and dataset management change nothing |
| RamdiskMeaning.CommandRefused | lib/xnvme_be_ramdisk_sync.c:28-83 | metadata gives status 161 and any other opcode 218, unless a status is set; nothing else changes |
| Ramdisk.Machine.Memcpy | lib/xnvme_be_ramdisk_sync.c:34-40 | in place, the bytes of the copy program |
| Ramdisk.Machine.CmdIo | lib/xnvme_be_ramdisk_sync.c:18-87 | the in-place executor returns the specified error and otherwise leaves the memory of the command's program |
| Ramdisk.Machine.SimpleCopy | lib/xnvme_be_ramdisk_sync.c:55-64 | the in-place loop, which reads each descriptor when its turn comes, leaves the memory of the gather program of the descriptors found at the start |
| Ramdisk.Machine.ReadRange | include/libxnvme_spec.h:2212-2224 | a descriptor is its little-endian first block and block count |
| Ramdisk.Machine.CmdIov | lib/xnvme_be_ramdisk_sync.c:90-143 | the in-place vectored executor returns the specified error and otherwise leaves the memory of the command's program |
| Ramdisk.Machine.WriteSegments | lib/xnvme_be_ramdisk_sync.c:102-108 | the in-place loop over the segments leaves the memory of the gather program |
| Ramdisk.Machine.ReadSegments | lib/xnvme_be_ramdisk_sync.c:110-116 | the in-place loop over the segments leaves the memory of the scatter program |
| Ramdisk.Machine.Execute | lib/xnvme_be_cbi_async_emu.c:125-137 | executing a well-formed command and storing its error is running its program; for other commands nothing is promised |
| ThreadPoolInv.AdmissionSuffices | lib/xnvme_cmd.c:54-58 | below capacity there is a free request entry, also inside a callback |
| ThreadPoolInv.StepKeepsInv | lib/xnvme_be_cbi_async_thrpool.c:114-365 | every step of submitter, reaper and workers keeps the invariants on places, counts, wake-ups and tickets |
| ThreadPoolInv.RunKeepsInv | lib/xnvme_be_cbi_async_thrpool.c:114-365 | so does every run |
| ThreadPoolTheorems.ExactlyOnce | lib/xnvme_be_cbi_async_thrpool.c:104-171 | in every reachable state each entry is in exactly one place; a submission is executed and called back at most once, called back only after all of its bytes, in the order of finishing |
| ThreadPoolTheorems.NeverRefused | lib/xnvme_be_cbi_async_thrpool.c:328-331 | behind the admission guard the request pool is never found empty |
| ThreadPoolTheorems.ReapTakes | lib/xnvme_be_cbi_async_thrpool.c:280-301 | a poke takes from the front of the completion queue, at most max and at most what is outstanding, and all there is unless max is reached |
| ThreadPoolTheorems.PokeCallsBack | lib/xnvme_be_cbi_async_thrpool.c:280-312 | up to its end, under every schedule and with any callbacks, a poke calls back the entries it took and no others, in order |
| ThreadPoolTheorems.PokeEnds | lib/xnvme_be_cbi_async_thrpool.c:308-316 | a poke that ends has called back exactly what it took, min(max, completions) when max is not zero, and lowered outstanding by that |
| ThreadPoolTheorems.SubmissionGoesThrough | lib/xnvme_be_cbi_async_thrpool.c:320-365 | below capacity any command can be submitted, by an idle caller and within a callback, and becomes the newest submission |
| ThreadPoolTheorems.NoLostWakeUp | lib/xnvme_be_cbi_async_thrpool.c:123-133 | while a worker sleeps, every queued entry has a worker on its way or a signal still owed |
| ThreadPoolTheorems.NoDeadlock | lib/xnvme_be_cbi_async_thrpool.c:114-175 | with commands outstanding there is a completion to reap or a worker step that is not falling asleep |
| ThreadPoolTheorems.WorkRunsOut | lib/xnvme_be_cbi_async_thrpool.c:114-317 | while nothing is submitted, a run has at most as many productive steps as there was work left when it began |
| ThreadPoolTheorems.ProductiveStepExists | lib/xnvme_be_cbi_async_thrpool.c:114-317 | with commands outstanding and the caller polling, some productive step is possible |
| ThreadPoolTheorems.DrainIsPossible | lib/xnvme_queue.c:118-135 | from every reachable state with the caller polling, a run leads to a drained queue |
| ThreadPoolTheorems.NobodySleeps | lib/xnvme_be_cbi_async_thrpool.c:184-206 | after the stop flag and the broadcast no worker sleeps or falls asleep, and one that leaves holds no entry |
| ThreadPoolTheorems.ShutdownTerminates | lib/xnvme_be_cbi_async_thrpool.c:178-219 | every step after the broadcast but the join lowers the number of steps left before the workers are gone |
| ThreadPoolTheorems.ShutdownNotStuck | lib/xnvme_be_cbi_async_thrpool.c:208-210 | until the join some worker can step |
| ThreadPoolTheorems.ShutdownIsPossible | lib/xnvme_be_cbi_async_thrpool.c:178-219 | from every reachable state with an idle caller, shutting down leads to its end |
| ThreadPoolTheorems.NothingLostAtShutdown | lib/xnvme_be_cbi_async_thrpool.c:135-140 | after the join every entry is in one of the three lists |
| ThreadPoolTheorems.DrainedMeansDone | lib/xnvme_queue.c:118-135 | with nothing outstanding every submission has been executed to its last byte |
| ThreadPoolTheorems.AsyncEqualsSequential | lib/xnvme_be_cbi_async_thrpool.c:119-171 | between two drains, independent submissions leave the memory of running them in submission order, for every schedule |
| ThreadPoolTheorems.UnwrittenStands | lib/xnvme_be_cbi_async_thrpool.c:119-171 | at every moment between two drains, bytes that no submission writes are as they were |
| AsyncRamdisk.CommandBounded | lib/xnvme_be_ramdisk_sync.c:18-143 | a command writes and reads only the byte ranges its fields, and the descriptors of a simple copy, describe |
| AsyncRamdisk.DisjointMeansIndependent | lib/xnvme_be_ramdisk_sync.c:18-143 | commands neither of which writes a byte the other one uses, descriptors included, are independent programs |
| AsyncRamdisk.RangesExact | lib/xnvme_be_ramdisk_sync.c:18-143 | the ranges are exact: a byte is in them iff the program writes it, or uses it, or it is a descriptor |
| AsyncRamdisk.DisjointIsIndependent | lib/xnvme_be_ramdisk_sync.c:18-143 | commands are disjoint iff their programs are independent and neither writes the other's descriptors |
| AsyncRamdisk.DisjointOneMore | lib/xnvme_be_ramdisk_sync.c:18-143 | a set of commands is disjoint iff each newly added one is disjoint from every earlier one |
| AsyncRamdisk.ExecuteAllIsRunAll | lib/xnvme_be_ramdisk_sync.c:18-143 | disjoint commands one by one, each reading its descriptors when its turn comes, are the programs read off at the start |
| AsyncRamdisk.DescriptorsStand | lib/xnvme_be_ramdisk_sync.c:22-64 | at every moment of a run, reading a submitted command then gives the program submitted for it |
| AsyncRamdisk.ThreadPoolDiskIsSequential | lib/xnvme_be_cbi_async_thrpool.c:119-171 | thread pool over ramdisk: disjoint commands between two drains leave, byte for byte, what executing them one by one leaves, each reading its descriptors when its turn comes |
| EmuQueue.Queue.constructor | lib/xnvme_be_cbi_async_emu.c:59-79 | the queue starts with all elements in the request pool |
| EmuQueue.AdmitMore | lib/xnvme_cmd.c:52-58 | what the guard admits of two series of submissions is what it admits of both as one |
| EmuQueue.LogBounded | lib/xnvme_cmd.c:52-58 | over any actions at most capacity commands are outstanding, and no accepted submission is forgotten |
| EmuQueue.Queue.CmdIo | lib/xnvme_be_cbi_async_emu.c:151-181 | a submission is appended, or refused with -EIO exactly when the pool is empty |
| EmuQueue.Queue.Pass | lib/xnvme_cmd.c:52-58 | behind the guard the only refusal is -EBUSY at capacity, also from a callback |
| EmuQueue.Queue.Callback | lib/xnvme_be_cbi_async_emu.c:139 | a callback submits exactly the commands of its script that the guard admits, in order |
| EmuQueue.Queue.ExecuteHead | lib/xnvme_be_cbi_async_emu.c:120-137 | the command executed is the oldest submission not yet executed |
| EmuQueue.Queue.Poke | lib/xnvme_be_cbi_async_emu.c:109-148 | a poke completes exactly the clamped number of commands; its callbacks together submit like one caller in a row, since it counts them off only at the end; memory is that of the executed submissions one by one, if each was well formed when executed |
| EmuQueue.Queue.Drain | lib/xnvme_queue.c:118-135 | draining leaves the memory of executing every submission in order |
| EmuQueue.Queue.Drive | lib/xnvme_be_cbi_async_emu.c:109-181 | for any sequence of submissions and pokes with any callbacks, submissions accepted and outstanding are those of the pure queue; the commands executed and called back are exactly the first (submitted - outstanding), and memory is that of executing them one by one |
| PosixQueue.LimitIsClamp | include/libxnvme_util.h:133-137 | the signed minimum is the unsigned one iff max is zero or both operands have the same top bit |
| PosixQueue.LimitNotClamped | include/libxnvme_util.h:133-137 | a maximum of 2^31 with one command outstanding is not clamped |
| PosixQueue.StatusShown | lib/xnvme_be_cbi_async_posix.c:86-111 | the status code is zero iff the transfer went through or its error is a multiple of 256, which eight bits do not show; its type is vendor iff polling or the transfer failed |
| PosixQueue.SameTransfer | lib/xnvme_be_cbi_async_posix.c:160-179 | an NVMe command at a block and the file command of the same direction at byte block * 2^ssw are the same transfer iff that is below 2^64 |
| PosixQueue.Queue.constructor | lib/xnvme_be_cbi_async_posix.c:46-64 | all requests start on the ready list |
| PosixQueue.Queue.CmdIo | lib/xnvme_be_cbi_async_posix.c:132-202 | the exact error of every refusal, which leaves both lists alone; otherwise the first ready request becomes the last outstanding one and carries a transfer of the command's direction, length and offset |
| PosixQueue.Queue.Pass | lib/xnvme_cmd.c:52-58 | behind the guard the ready list is never empty |
| PosixQueue.Queue.Callback | lib/xnvme_be_cbi_async_posix.c:113 | a callback submits exactly the commands of its script that fit and that the kernel takes, while its own request is still outstanding |
| PosixQueue.Queue.Recycle | lib/xnvme_be_cbi_async_posix.c:115-123 | a request leaves the outstanding list from any position and its submission is counted as called back once |
| PosixQueue.Queue.Poke | lib/xnvme_be_cbi_async_posix.c:67-129 | no more than the limit is reaped; what the callbacks submitted is exactly what fitted, each finding the completions before its own counted off; a poke that stops short has, in its last polls, seen every outstanding request in progress, in list order; every callback reports what the kernel said |
| PosixQueue.Queue.Scan | lib/xnvme_be_cbi_async_posix.c:81-126 | the restart-from-head loop ends, with any callbacks |
| PosixQueue.Queue.Drain | lib/xnvme_queue.c:118-135 | if the kernel finishes every request in the end, draining ends with each submission called back exactly once |
| Tape.SlotIsMod | include/libxnvme_cuda.h:108 | a position of the tape is in the slot of its remainder |
| Tape.TagIsParity | include/libxnvme_cuda.h:160-163 | its phase tag is the parity of the laps |
| GpuRing.ExpectedIsTag | include/libxnvme_cuda.h:162-163 | the phase compared with is that of the polled position iff head + offset fits 16 bits |
| GpuRing.MovedIsNext | include/libxnvme_cuda.h:192-198 | head and phase move to the next position iff head + increment fits 16 bits |
| GpuRing.DoorbellAnnounces | include/libxnvme_cuda.h:135-137 | the doorbell announces the batch iff it is smaller than the ring |
| GpuRing.FullBatchAnnouncesNothing | include/libxnvme_cuda.h:135-137 | a batch as large as the ring leaves the tail where it was, so nothing is announced |
| GpuRing.SumsLeaveSixteenBits | include/libxnvme_cuda.h:162-198 | in a ring of 40000 entries a thread expects the wrong phase and the head moves wrongly |
| GpuRing.QueuePair.EnqueueAt | include/libxnvme_cuda.h:104-121 | the word-by-word copy puts the command into the slot of its position and leaves every other slot alone |
| GpuRing.QueuePair.SqUpdate | include/libxnvme_cuda.h:132-138 | tail and doorbell follow the number of commands sent; the controller sees the increment iff it is smaller than the ring |
| GpuRing.QueuePair.ReapAt | include/libxnvme_cuda.h:153-177 | the first poll with a fresh entry is returned, -EAGAIN iff no poll is fresh; the tag asked for is that of the position iff the sum fits 16 bits |
| GpuRing.QueuePair.CqUpdate | include/libxnvme_cuda.h:189-200 | head and phase follow the number of completions iff the sum fits 16 bits |
| GpuRounds.StepKeepsInv | include/libxnvme_cuda.h:239-272 | every step of a thread or the controller keeps the invariants on barriers, pointers, both rings and command ids |
| GpuRounds.PolledIsPosted | include/libxnvme_cuda.h:157-173 | a polled entry is fresh exactly when the completion of its position is posted |
| GpuRounds.RunKeepsInv | include/libxnvme_cuda.h:239-272 | so does every run |
| GpuRounds.SmallRingsOk | include/libxnvme_cuda.h:239-272 | the batches of the runs considered are, in rings of up to 32768 entries, all those smaller than the ring with a thread per command |
| GpuTheorems.HeadAndPhase | include/libxnvme_cuda.h:189-200 | over any number of rounds head is the completions modulo the depth and phase the parity of their laps |
| GpuTheorems.ReapIsCurrent | include/libxnvme_cuda.h:153-177 | a thread accepts an entry iff the completion for its position is posted, and it is one of the current round, never a stale slot |
| GpuTheorems.RoundIsPermutation | include/libxnvme_cuda.h:239-272 | when a round is acknowledged the reaped command ids are a permutation of 0 .. batch-1 of that round |
| GpuTheorems.RaceFree | include/libxnvme_cuda.h:246-265 | no thread reads tail, head or phase while their update is pending; enqueues precede the doorbell, reaps the acknowledgement |
| GpuTheorems.FetchesInOrder | include/libxnvme_cuda.h:246-255 | the controller only ever fetches commands written in the current round, in thread order |
| GpuTheorems.NoDeadlock | include/libxnvme_cuda.h:239-272 | in every reachable state some thread or the controller can step |
| GpuTheorems.FullBatchStrands | include/libxnvme_cuda.h:132-138 | a round with a batch as large as the ring never ends: the controller fetches nothing, in any run |
| GpuTheorems.FirstBatchStrands | include/libxnvme_cuda.h:204-207 | so it is from the start when the first batch is as large as the ring |
| Register.CrcIsBitwise | lib/xnvme_crc.c:458-460 | symbol at a time is bit at a time |
| Register.MixedTable | lib/xnvme_crc.c:23-439 | rows that follow each other by a zero symbol, column by column, divide a symbol with that many zero symbols after it |
| Register.BlockLookup | lib/xnvme_crc.c:448-457 | one lookup per symbol, summed, is the block processed symbol by symbol from an empty register |
| Register.PrimedSteps | lib/xnvme_crc.c:449-450 | adding the register to the first two symbols empties it |
| Register.BurstDetected | lib/xnvme_crc.c:442-462 | messages that differ only inside one register-wide window have different remainders |
| Crc16.TableIsDivision | lib/xnvme_crc.c:23-439 | an entry of row k is its byte followed by k zero bytes, divided bit by bit |
| Crc16.NextRow | lib/xnvme_crc.c:23-439 | every column of a row is that of the previous row followed by a zero byte |
| Crc16.SixteenBytes | lib/xnvme_crc.c:448-457 | the sixteen lookups equal sixteen single steps |
| Crc16.OneByte | lib/xnvme_crc.c:458-460 | the tail lookup equals one step |
| Crc16.UpdateFast | lib/xnvme_crc.c:441-462 | for every length and initial value the loops equal bit-at-a-time division by 0x8BB7 |
| Crc16.Continues | lib/xnvme_crc.c:475-479 | the checksum of the first part is the seed for the second |
| Crc16.TwoByteBurstDetected | lib/xnvme_crc.c:441-462 | messages that differ only within two adjacent bytes have different checksums |
| Crc16.CodewordHasNoRemainder | lib/xnvme_crc.c:475-479 | a message followed by its checksum has checksum zero |
| Crc64.EntryDivides | lib/xnvme_crc.c:482-568 | a table entry is its byte divided bit by bit |
| Crc64.Nvme | lib/xnvme_crc.c:570-587 | for every length and seed the loop equals reflected bit-at-a-time division by 0x9A6C9329AC4BC9B5 |
| Crc64.Continues | lib/xnvme_crc.c:570-587 | the checksum of a + b is the checksum of b seeded with that of a |
| Crc64.EightByteBurstDetected | lib/xnvme_crc.c:570-587 | messages that differ only within eight adjacent bytes have different checksums |
| Crc64.CodewordResidue | lib/xnvme_crc.c:570-587 | a message followed by its checksum has one and the same checksum, whatever message and seed |
| ZoneReport.MatchesAre | lib/xnvme_be_linux_block.c:371-374 | the reference filter keeps exactly the zones in the condition the request names |
| ZoneReport.MatchIsWanted | lib/xnvme_be_linux_block.c:266-289 | a zone is selected iff its condition is the one the request names: 1 empty, 2 implicitly open, 3 explicitly open, 4 closed, 5 full, 6 read-only, 7 offline, 0 any |
| ZoneReport.MatchesArePicks | lib/xnvme_be_linux_block.c:366-389 | the filter is the zones from the start zone on in the condition named, each once, in order |
| ZoneReport.CountOfAll | lib/xnvme_be_linux_block.c:339-344 | the header-only count of all zones is the count from the start zone iff that is the first zone or there are none |
| ZoneReport.CountOfAllMisses | lib/xnvme_be_linux_block.c:339-344 | two zones, asked for from the second on, are counted as two |
| ZoneReport.UnknownMatchesNone | lib/xnvme_be_linux_block.c:266-289 | an undefined filter value selects no zone |
| ZoneReport.StatesApart | lib/xnvme_be_linux_block.c:266-289 | a zone selected under one state is selected under no other, and under all |
| ZoneReport.DescriptorInBlocks | lib/xnvme_be_linux_block.c:246-254 | start, write pointer and capacity are the numbers of the blocks of 2^ssw bytes that hold those sectors of 512 bytes |
| ZoneReport.DescriptorShowsState | lib/xnvme_be_linux_block.c:256-261 | a zone of the sequential-write kind is shown in its own condition and any other as offline; so the condition asked for is shown iff the zone is of that kind, or any or offline zones were asked for |
| ZoneReport.Buffer.Visit | lib/xnvme_be_linux_block.c:366-389 | one reported zone extends the filter by one, in buffer and header; a partial report without room says so |
| ZoneReport.Buffer.VisitBatch | lib/xnvme_be_linux_block.c:366-390 | a batch extends the filter by its zones; a partial header grows by the matches that fit, and by one if there are more |
| ZoneReport.Buffer.Scan | lib/xnvme_be_linux_block.c:354-391 | the batches cover every zone from the start zone on, and the header has its exact value; -EIO iff the kernel fails a batch |
| ZoneReport.Buffer.Receive | lib/xnvme_be_linux_block.c:304-396 | the exact error; otherwise the buffer holds the first matches in order, as many as fit, and the header is every match (partial: those that fit and one for every batch with a match behind them) |
| ZoneReport.UntruncatedReport | lib/xnvme_be_linux_block.c:304-396 | a full report whose header fits the buffer shows every zone from the start zone on in the condition named, and nothing else |
| ZoneReport.RoomIs | lib/xnvme_be_linux_block.c:335-337 | 64 bytes of header, then one descriptor for every 64 bytes, counted in 32 bits |
| ZoneReport.KernelReports | lib/xnvme_be_linux_block.c:355-363 | asked for a batch by its first block, the kernel reports exactly the zones of that batch |
| ZoneReport.PartialHeader | lib/xnvme_be_linux_block.c:375-385 | a partial header says what the buffer holds iff every match fits |
| ZoneReport.PartialHeaderOfAll | lib/xnvme_be_linux_block.c:375-385 | for all zones from the first on, the header exceeds the buffer by the batches of 64 that do not fit entirely |
| ZoneReport.HeaderOfFive | lib/xnvme_be_linux_block.c:375-385 | two hundred zones, all asked for from the first on with room for one, are reported as five |
| LibaioRing.Queue.constructor | lib/xnvme_be_linux_async_libaio.c:61-81 | the queue starts with an empty ring |
| LibaioRing.ToReport | lib/xnvme_be_linux_async_libaio.c:141-147 | a result of zero or more is reported as it is; a negative one as result zero, its negation modulo 256 and a vendor status |
| LibaioRing.Queue.KernelPost | lib/xnvme_be_linux_async_libaio.c:23-35 | the kernel appends iff a slot beside the one kept empty is free, and disturbs no event in the ring |
| LibaioRing.Queue.Copy | lib/xnvme_be_linux_async_libaio.c:107-123 | events are copied in posting order across any number of wraps, within the array, until the limit or an empty ring, while exactly the arriving events that fit are posted |
| LibaioRing.Queue.Pass | lib/xnvme_be_linux_async_libaio.c:214-224 | a submission counts iff the kernel takes it |
| LibaioRing.Queue.Deliver | lib/xnvme_be_linux_async_libaio.c:126-153 | the events before the first one without a context are called back in order; the count is right iff there is none or it is alone |
| LibaioRing.Queue.Poke | lib/xnvme_be_linux_async_libaio.c:84-154 | each event is taken once, in posting order, at most max, and all that had arrived unless max is reached; outstanding is submitted minus delivered iff no event lacks a context or it is alone; what arrived and what callbacks submitted meanwhile is told exactly |
| LibaioRing.CountGoesWrong | lib/xnvme_be_linux_async_libaio.c:130-139 | a batch of two whose second event has no context is one that the condition of Deliver and Poke excludes |
| ControllerRefs.Table.Get | lib/xnvme_be_cref.c:11-32 | a hit iff the URI is in the table, and then exactly one more reference |
| ControllerRefs.Table.Insert | lib/xnvme_be_cref.c:34-61 | the exact error; the table keeps one entry per URI and handle iff both are new to it |
| ControllerRefs.KeysApart | lib/xnvme_be_cref.c:18-52 | two URIs are the same key iff they are equal or agree in their first 384 characters |
| ControllerRefs.FullHolds | lib/xnvme_be_cref.c:43-61 | a table without room holds a hundred different handles |
| ControllerRefs.Clashes | lib/xnvme_be_cref.c:43-57 | a handle or URI that is in the table, entered once more, leaves a table that is not consistent |
| ControllerRefs.Table.Put | lib/xnvme_be_cref.c:63-101 | -EINVAL for unknown handles; otherwise one reference less, and the destructor's result and an empty slot when it was the last |
| ControllerRefs.Table.Drive | lib/xnvme_be_cref.c:11-101 | over every history of opens and closes that inserts only handles not in the table at that moment, table and history are those of the pure operations one by one, and the counts are insertions plus hits minus puts |
| ControllerRefs.DestroyedAtZero | lib/xnvme_be_cref.c:84-96 | a handle is in the table iff its balance is positive; its destructor ran exactly once for every stay that ended |
| CpuSet.WeightUnique | lib/xnvme_cli.c:1226-1237 | ascending ids with the same sum of powers of two are the same ids |
| CpuSet.LowValueIsHexValue | lib/xnvme_cli.c:1226-1230 | digits from the right, each with its weight, give the value of the numeral |
| CpuSet.HexRoundTrip | include/libxnvme_util.h:318-328 | a number written with the digits 0123456789abcdef is read back as itself |
| CpuSet.HexDigitsAre | lib/xnvme_cli.c:1209-1216 | the characters taken are 0123456789abcdef and ABCDEF, and no others |
| CpuSet.UpperCase | include/libxnvme_util.h:318-328 | a numeral and its upper-case spelling have the same value |
| CpuSet.MaskOfNumber | lib/xnvme_cli.c:1184-1241 | every number from 1 to 2^1024 - 1, written in hexadecimal with or without prefix, is an accepted mask and names its set bits |
| CpuSet.Args.ParseCpumask | lib/xnvme_cli.c:1184-1241 | accepted iff a nonzero hexadecimal numeral of at most 256 digits; then the set bits of its value, ascending, whose powers of two sum to it |
| CpuSet.Args.ParseElement | lib/xnvme_cli.c:1250-1301 | the element the grammar gives at the cursor, or none |
| CpuSet.Args.ParseCpulist | lib/xnvme_cli.c:1303-1341 | accepted iff well formed and without repetition; then the ranges expanded in order, distinct, at most 1024 |
| CpuSet.Pigeonhole | lib/xnvme_cli.c:1323-1335 | distinct ids below 1024 fit the array |
| CpuSet.NotationsAgree | lib/xnvme_cli.c:1184-1341 | a mask and an accepted list with ascending ids give the same array iff they name the same set |
| CpuSet.ListOkByGrammar | lib/xnvme_cli.c:1303-1341 | the accepted lists are those of the grammar that name no id twice |
| CpuSet.MaskAsList | lib/xnvme_cli.c:1303-1341 | the ids of a mask written as a list are accepted and read back in order |
| CpuList.RoundTrip | lib/xnvme_cli.c:1250-1341 | every list of valid ranges, written out, is read back as itself |
| CpuList.Grammar | lib/xnvme_cli.c:1250-1341 | a text is read as a list of ranges iff it spells them: numerals, or numerals with a dash between them, joined by commas, ids below 1024 and not descending |
| CpuList.DigitsAre | lib/xnvme_cli.c:1250-1301 | the digits are 0123456789, and each stands for its place there |

## Left out

- Commands still queued when the thread pool shuts down are dropped by the code; nothing is claimed for them.
- Failures of mutex, condition-variable and thread-creation calls, and of memory allocation other than that of the zone report.
- The `nil`, `io_uring`, SPDK, libvfn, IOKit and Windows backends: foreign code, or index arithmetic without the re-entrancy property.
- The eventfd of the libaio queue and its conversion of commands to control blocks.
- GPU completion timeouts: head advances by the batch after a timeout, so the ring properties hold in runs without one.
- Crc16.TableIsDivision: a table row is its columns 128, 64, .., 1 as they stand in the source; the other entries are modelled as the combinations of these. The same holds for Crc64.EntryDivides.
- PosixQueue.Queue.CmdIo: file descriptor, buffer address and notification fields of the control block are not modelled.
- PosixQueue.Queue.Poke: the conversion of the returned count to a signed integer is not modelled.
- LibaioRing.Queue.Poke: memory ordering between kernel and process; a read of the tail sees every event posted before it.
- ZoneReport.Buffer.Receive: block addresses do not wrap around at 64 bits.
- ControllerRefs.Table.Get: the reference count does not overflow; the backend name stored with an entry is not modelled.
- CpuSet.Args.ParseElement: numbers are plain decimal digits; the sign and white space that strtoul also takes are not modelled.
- CpuSet.Args.ParseCpulist: the bitmap of seen ids is one flag per id, not packed into words.
- Ramdisk.Machine.CmdIo: disk addresses do not wrap around at 64 bits; buffers, status fields and disk ranges of one transfer are apart, as memcpy demands, and the destination of a simple copy is apart from its own descriptors.
- Ramdisk.Machine.Execute: a command that breaks these rules of its callers has an open outcome, and so has the memory of a queue that executes one.
- AsyncRamdisk.ThreadPoolDiskIsSequential: memory changes only by commands; an application that rewrites a buffer or a descriptor while its command is outstanding is not modelled.
- Queue context pool, device open and scan, option tables, pretty printers, command-field packing, zoned and protection-information helpers: straight-line code with easy properties.
