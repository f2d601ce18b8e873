# QEMTrace and QEMU core, verified in Dafny

A model of the parts of this QEMU tree, with its memory-access tracer QEMTrace, whose
correctness is not visible from one function at a time, and proofs about it.

| modules | what they model |
|---|---|
| `ExclusiveSections` | the protocol of `start_exclusive`, `end_exclusive`, `cpu_exec_start` and `cpu_exec_end`, as a step system over all interleavings |
| `PhysMap`, `Dispatch`, `Topology`, with `Radix` and `Pages` | the physical page map: range insertion, compaction, sub-pages, the MRU slot, and the map built from a flat view |
| `RamBlocks` | the allocator of RAM block offsets |
| `SmiMask`, `SmiRing`, `SmiSessions` | the shared-memory ring of the tracer, its block mask, and the sessions sent through it |
| `Trace`, `TraceFile`, `TraceThreads`, with `Bytes` | trace records, the single-buffer file writer, and the double-buffered one with its flusher thread |
| `DumpElf` | the memory part of an ELF guest dump |
| `GuestPages`, `DumpBitmap`, `KdumpCache`, `KdumpPages`, `Kdump` | the kdump format: page walk, bitmap, write cache, page descriptors and data, and the whole file |
| `GdbPackets` | the packet layer of the gdb stub; the format is that of the "Overview" section of the GDB Remote Serial Protocol appendix of "Debugging with GDB" |
| `BlockPerms`, `BlockRuns`, with `Wrappers` | permissions in the graph of block nodes, and runs of operations on it |
| `Icount` | instruction counting and the virtual clock |

Concurrent code is a step system: a state with a program counter for each thread, a function
for the next step of a thread, and theorems about every state of every run.  Code that
updates state in place is a class, with its loops as methods proved against functions and
predicates on values.  Assertions of the program are shown never to fail, or their failure is
an outcome, or they are preconditions.

Sizes the program fixes (page sizes, fan-out and depth of the page map, block counts, buffer
sizes, the width of an address) are symbolic wherever the property does not depend on them.
`dafny verify dfyconfig.toml` checks the whole project.

Where the code is less than it may seem, the code is modelled as it is and the exact
condition is proved:

- The gap that `find_ram_offset` picks is free because all offsets are aligned, an invariant
  the code relies on without stating it (`GapIsFree`, `UnalignedBlockIsOverrun`).
- The uninitialised upper half of `blocks` in `qem_smi_client_flush` is harmless exactly up to
  sixteen blocks (`UpperHalfMatters`).
- A trace record of zeros looks like the end of a session (`ReadBack`, `NullRecord`,
  `NullAccessIsLost`).
- The size in the header of a trace file counts a record for the header, so it is the file
  length exactly for 16-byte records (`HeaderSizeIsFileLength`).
- The offset of the page descriptors in a kdump file is computed in 32 bits, and past that the
  descriptors are written over the bitmaps (`AreasAreAdjacent`, `DescriptorsOnBitmap`).
- The comment in `bdrv_replace_child` that the check after taking a parent away is guaranteed to
  succeed is not so once an inner edge was set by hand (`LoosenedIsReached`,
  `LoosenedEdgeBreaksDetach`).  It fails exactly if some way down from the node is blocked
  (`DetachAbortsIff`), and never if the edges below are no looser than their policies ask
  (`DetachCheckSucceeds`).
- An adaptive warp turns the virtual clock back exactly if the clock was ahead of real time, or
  real time before the start of the warp (`WarpGoesBackIff`, `AdaptiveWarpCanGoBack`).

## Model

| member | source | states |
|---|---|---|
| `ExclusiveSections.StepKeepsInv` | Qemu/cpus-common.c:171-297 | every step of every thread keeps the invariant: who holds the lock, which flags match which program points, what `pending_cpus` counts, who has been passed by the scan, who is owed a wake-up |
| `ExclusiveSections.RunKeepsInv` | Qemu/cpus-common.c:171-297 | so every state of every interleaving satisfies it, for any number of CPUs and exclusive callers |
| `ExclusiveSections.MutualExclusion` | Qemu/cpus-common.c:180-220 | at most one thread is between the return of `start_exclusive` and `end_exclusive`, and meanwhile no CPU is past `cpu_exec_start` without having cleared `running` |
| `ExclusiveSections.PendingCountsMarks` | Qemu/cpus-common.c:185-211 | once published, `pending_cpus` is one plus the marked CPUs plus those between unmarking and decrement, and every marked CPU still has its decrement ahead |
| `ExclusiveSections.DrainWakeupIsOwed` | Qemu/cpus-common.c:204-211 | a thread asleep on `exclusive_cond` is owed a signal: a marked CPU is still to decrement, or the last one is about to signal |
| `ExclusiveSections.ResumeWakeupIsOwed` | Qemu/cpus-common.c:171-176 | a thread asleep in `exclusive_idle` is owed a broadcast |
| `ExclusiveSections.NoDeadlock` | Qemu/cpus-common.c:171-297 | while any thread is inside the protocol some thread inside it can step without a spurious wake-up |
| `ExclusiveSections.DrainIsBounded` | Qemu/cpus-common.c:204-211 | while `start_exclusive` waits no step adds work to wait for and every step of a marked CPU removes some |
| `ExclusiveSections.StepRefines` | Qemu/cpus-common.c:171-297 | each step is a step, or no step, of a reader/writer interface: CPUs execute together, a section excludes all |
| `ExclusiveSections.RunRefines` | Qemu/cpus-common.c:171-297 | every run of the protocol is a run of that interface which shows who executes and who is in a section |
| `PhysMap.PageTable.Reserve` | Qemu/exec.c:224-233 | room for n more nodes, and no move of the array if it was there already |
| `PhysMap.PageTable.NodeAlloc` | Qemu/exec.c:235-253 | a fresh node of NIL or unassigned entries, or the assertion on its number fails, exactly if every number below NIL is in use; the assertion that there is room never fails |
| `PhysMap.PageTable.SetLevel` | Qemu/exec.c:255-279 | on an uncompacted tree over unassigned pages: the leaf exactly on the pages from `index` to where the entry or the range ends, every other page and every other node unchanged, `index` and `nb` advanced to match, node cost bounded by how many sides of the range are ragged; or the node numbers have run out, which takes more than that cost |
| `PhysMap.PageTable.SetSlots` | Qemu/exec.c:265-278 | the loop over the slots, against the same specification |
| `PhysMap.PageTable.PageSet` | Qemu/exec.c:281-289 | lookup gives the new leaf on exactly [index, index + nb) and is unchanged elsewhere; at most 2 * P_L2_LEVELS - 1 nodes are allocated, so the reservation suffices; the assertion on node numbers fails only with all of them in use and fewer than that many free before |
| `PhysMap.PageTable.PageFind` | Qemu/exec.c:362-377 | the walk computes the section the tree maps the page to |
| `PhysMap.FindFrame` | Qemu/exec.c:362-383 | lookup below an entry only depends on the nodes of its own subtree |
| `PhysMap.PageTable.Compact` | Qemu/exec.c:294-342 | compacting an entry sends every page of it to its old section, or an unassigned page to some section; children are compacted before they are merged |
| `PhysMap.PageTable.CompactSlots` | Qemu/exec.c:305-315 | the loop counts the used slots and leaves every slot compacted |
| `PhysMap.PageTable.CompactAll` | Qemu/exec.c:344-349 | the whole tree: a page keeps its section or had none |
| `Dispatch.AddressSpaceDispatch.constructor` | Qemu/exec.c:3032-3049 | the four dummy sections, an empty tree, and every address unassigned |
| `Dispatch.AddressSpaceDispatch.SectionAdd` | Qemu/exec.c:1515-1532 | appends a section and returns its number, or aborts exactly if the number would not fit a page offset |
| `Dispatch.AddressSpaceDispatch.SubpageRegister` | Qemu/exec.c:2918-2936 | fills exactly the bytes of the range |
| `Dispatch.AddressSpaceDispatch.RegisterSubpage` | Qemu/exec.c:1557-1585 | the bytes of the section mean the section, all other addresses mean what they did; it takes one section number, and a second one exactly if nothing was mapped in the page before; it aborts only with the numbers exhausted |
| `Dispatch.AddressSpaceDispatch.RegisterMultipage` | Qemu/exec.c:1588-1599 | the same for whole pages |
| `Dispatch.AddressSpaceDispatch.Add` | Qemu/exec.c:1601-1630 | the same for any section over free bytes, after splitting it into head, whole pages and tail; the number of sections it takes is exact, so unless nodes run out it aborts if and only if that is more than are left |
| `Dispatch.FirstSubpageAdded` | Qemu/exec.c:1572-1584 | a new sub-page table extends the meaning of the map by exactly the piece |
| `Dispatch.SubpageAdded` | Qemu/exec.c:1578-1584 | so does writing into an existing one |
| `Dispatch.MultipageAdded` | Qemu/exec.c:1588-1599 | so does setting whole pages |
| `Dispatch.CompactionKeepsFound` | Qemu/exec.c:351-383 | `phys_page_find` returns the same section before and after compaction: the covering test rescues what a skipped path misdirects |
| `Dispatch.AddressSpaceDispatch.Compact` | Qemu/exec.c:344-349 | no address changes its meaning |
| `Dispatch.MruHit` | Qemu/exec.c:386-403 | a cached section that covers an address is the section of that address |
| `Dispatch.AddressSpaceDispatch.Lookup` | Qemu/exec.c:386-403 | the answer is what the map says, whatever earlier lookups left in the MRU slot |
| `Topology.Generate` | Qemu/memory.c:743-749 | for pairwise disjoint non-empty sections in any order and number: every byte resolves to the region and offset its section gives it, and to nothing elsewhere; or an assertion fails: always if the view takes more section numbers than a page has bytes, and otherwise only if its pieces may need more nodes than there are |
| `Topology.NumbersAfter` | Qemu/exec.c:1557-1630 | the section numbers a view takes, whatever the order of its sections: four, one for each piece, and one for each page that some section has only a part of |
| `Topology.UntouchedIffNotRagged` | Qemu/exec.c:1557-1585 | a page that a new section has a part of has bytes of earlier sections exactly if one of those has a part of it too |
| `Topology.WhereHolds` | Qemu/memory.c:743-749 | the reference meaning does not depend on the order of the sections |
| `Topology.WhereNothing` | Qemu/memory.c:743-749 | and is nothing outside all of them |
| `RamBlocks.RamList.ClosestOffset` | Qemu/exec.c:1910-1917 | the inner loop finds the closest block at or after the candidate |
| `RamBlocks.RamList.FindRamOffset` | Qemu/exec.c:1889-1939 | the offset is the rounded end of a block followed by the smallest gap that fits; it aborts exactly if no gap fits |
| `RamBlocks.GapIsFree` | Qemu/exec.c:1903-1917 | the gap after a block overlaps no block, because every offset is aligned |
| `RamBlocks.UnalignedBlockIsOverrun` | Qemu/exec.c:1903-1928 | without that invariant it is false: a list with an unaligned offset whose best fit overlaps a block |
| `RamBlocks.RamList.Add` | Qemu/exec.c:2159-2221 | blocks stay aligned, disjoint and sorted from biggest to smallest; a failed host allocation or an abort changes nothing |
| `RamBlocks.RamList.Free` | Qemu/exec.c:2405-2423 | removes the block and keeps the same invariant |
| `SmiMask.MaskOperations` | QEMTrace/qem_trace_smi_engine.c:572-607 | testing and marking a block of the first sixteen acts on its bit of the shared mask and no other, whatever the upper half of the variable holds |
| `SmiMask.UpperHalfMatters` | QEMTrace/qem_trace_smi_engine.c:629-653 | the uninitialised half of `blocks` never matters exactly for blocks below sixteen; a later block could not be marked at all |
| `SmiRing.LoopKeeps` | QEMTrace/qem_trace_smi_engine.c:557-568 | filling the local buffer, and the rest that fits, keep the stream |
| `SmiRing.CopyKeeps` | QEMTrace/qem_trace_smi_engine.c:590-594 | each byte of the unlocked copy keeps the full blocks, with the reader at work |
| `SmiRing.PublishKeeps` | QEMTrace/qem_trace_smi_engine.c:596-612 | marking the block moves it from the writer to the ring |
| `SmiRing.StepKeepsInv` | QEMTrace/qem_trace_smi_engine.c:537-691 | every step of writer and reader keeps the invariant |
| `SmiRing.ReaderGetsTheStream` | QEMTrace/qem_trace_smi_engine.c:537-691 | in every state of every run: consumed blocks, then full blocks in ring order, then the bytes in the writer, are the bytes sent, zero-padded to a block at each flush; what the reader saw is a prefix of that |
| `SmiRing.SetBlocksAreStable` | QEMTrace/qem_trace_smi_engine.c:585-594 | no step changes a block whose bit is set, and the unlocked copy owns a block whose bit is clear |
| `SmiRing.TurnTakesOneBlock` | QEMTrace/qem_trace_smi_engine.c:559-568 | each turn of the send loop lowers `local_buffer_index + write_size` by `block_size` |
| `SmiRing.WriterProgress` | QEMTrace/qem_trace_smi_engine.c:559-688 | every writer step but falling asleep brings the call nearer to its end, and the writer sleeps only when all blocks are full |
| `SmiRing.SleepingWriterGoesOn` | QEMTrace/qem_trace_smi_engine.c:577-583 | a sleeping writer is never stuck: the reader has a block to take or the writer goes on |
| `SmiRing.CallsDetermineStream` | QEMTrace/qem_trace_smi_engine.c:537-691 | the stream depends on the calls only |
| `SmiSessions.Tracer.Enable` | QEMTrace/qem_trace_smi.c:113-129 | a session is open exactly when the state is not zero; enabling replaces the state and opens a session from zero |
| `SmiSessions.Tracer.Disable` | QEMTrace/qem_trace_smi.c:131-146 | disabling clears bits, and when none is left ends the session with a zero record and pads the block |
| `SmiSessions.Tracer.Output` | QEMTrace/qem_trace_smi.c:165-195 | appends the record to the open session |
| `SmiSessions.Tracer.InitTracing` | QEMTrace/qem_trace_smi.c:71-90 | version and record size, at a block boundary |
| `SmiSessions.Tracer.CloseTracing` | QEMTrace/qem_trace_smi.c:95-111 | the zero record and zeros to the end of the block |
| `SmiSessions.HeaderSize` | QEMTrace/qem_trace_smi.c:73-90 | version and record size come back from a session header |
| `SmiSessions.StreamIsAligned` | QEMTrace/qem_trace_smi.c:56-111 | every session starts and ends on a block boundary |
| `SmiSessions.ReadBack` | QEMTrace/qem_trace_smi.c:56-146 | a reader that stops at the zero record recovers all sessions and records exactly if no record is all zeros |
| `SmiSessions.NullAccessIsLost` | QEMTrace/qem_trace_smi.c:95-195 | and the tracer writes such records: whatever it has recorded before, a session with one access to address 0, by core 0 at time 0 and without flags, is not recovered |
| `SmiSessions.ConsumedSessions` | QEMTrace/qem_trace_smi.c:56-146 | tracer, ring and reader together: once a tracer has closed its sessions and the ring is drained, in every interleaving the reader has consumed exactly its sessions, and recovers them exactly if no record is all zeros |
| `Trace.RecordRoundTrip` | QEMTrace/qem_trace_engine.h:48-79 | address, time, core byte and flags come back from a record in all four layouts |
| `Trace.NullRecord` | QEMTrace/qem_trace_smi.c:176-189 | which accesses give an all-zero record |
| `TraceFile.FileWriter.Enable` | QEMTrace/qem_trace_file.c:158-174 | opens a file from state zero; files and buffer hold the records asked for |
| `TraceFile.FileWriter.Disable` | QEMTrace/qem_trace_file.c:176-191 | closes the file when no bit is left |
| `TraceFile.FileWriter.Output` | QEMTrace/qem_trace_file.c:210-260 | flushes a full buffer and appends the record; file then buffer are the records in order |
| `TraceFile.FileWriter.CloseTracing` | QEMTrace/qem_trace_file.c:125-156 | the closed file is a header with the size and the records, and nothing else |
| `TraceFile.FileHeaderFields` | QEMTrace/qem_trace_engine.h:80-86 | size, record size and version come back from a file header |
| `TraceFile.HeaderSizeIsFileLength` | QEMTrace/qem_trace_file.c:99-156 | the size in the header is the file length exactly if a record is 16 bytes long |
| `TraceThreads.StepKeepsInv` | QEMTrace/qem_trace_file_mt_buff.c:77-354 | every step of producer and flusher keeps the invariant |
| `TraceThreads.OneFlusher` | QEMTrace/qem_trace_file_mt_buff.c:209-235 | never two flushers; while the semaphore is free nothing is in flight and the idle buffer is empty |
| `TraceThreads.FileIsStream` | QEMTrace/qem_trace_file_mt_buff.c:289-354 | while a file is open: its contents, then the buffer in flight, then the current buffer, are the records emitted, in order |
| `TraceThreads.NeverStuck` | QEMTrace/qem_trace_file_mt_buff.c:307-317 | a producer waiting for the semaphore waits for a flusher that can go on |
| `TraceThreads.RefinesFileWriter` | QEMTrace/qem_trace_file_mt_buff.c:77-354 | in every interleaving, once its calls have returned, the closed files are the images of the records the calls ask for |
| `TraceThreads.RunFileWriter` | QEMTrace/qem_trace_file.c:158-260 | a single-buffer writer run over a series of calls logs what the calls ask for |
| `TraceThreads.SameFiles` | QEMTrace/qem_trace_file_mt_buff.c:77-354 | that writer, of any capacity, run over the calls of an interleaving leaves the same closed files and the same state |
| `DumpElf.Dump.CalculateSize` | Qemu/dump.c:1580-1600 | the number of bytes that will be dumped |
| `DumpElf.Dump.GetOffsetRange` | Qemu/dump.c:410-469 | not stored exactly if no block dumps the address; else the file range holds the memory of the first block that does, clamped to its dumped part |
| `DumpElf.Dump.BytesLand` | Qemu/dump.c:410-469 | in the finished file those bytes are at that offset |
| `DumpElf.Dump.GetStartBlock` | Qemu/dump.c:1528-1554 | finds the first block that is not skipped, if there is one |
| `DumpElf.Dump.GetNextBlock` | Qemu/dump.c:611-636 | skips exactly the blocks out of range |
| `DumpElf.Dump.WriteMemory` | Qemu/dump.c:384-407 | the page-wise writes add up to the whole range |
| `DumpElf.Dump.Iterate` | Qemu/dump.c:639-662 | writes exactly the dumped parts, in order |
| `DumpElf.Dump.Create` | Qemu/dump.c:1687-1702 | succeeds exactly if there is memory to dump; a start block is then always found |
| `GuestPages.PageWalker.Next` | Qemu/dump.c:1126-1170 | yields the existing page frames in ascending order, each once, with its memory |
| `DumpBitmap.BitmapWriter.constructor` | Qemu/dump.c:1556-1562 | `max_mapnr` and `len_dump_bitmap` |
| `DumpBitmap.BitmapWriter.SetDumpBitmap` | Qemu/dump.c:1053-1104 | writes out the buffers up to the one of the new bit, empty ones included, and sets the bit |
| `DumpBitmap.BitmapWriter.WriteDumpBitmap` | Qemu/dump.c:1172-1222 | the writes are exactly two copies of the bitmap, the file holds all of them, nothing outside the two areas has changed, and the count is the number of pages |
| `DumpBitmap.BitmapWriter.CloseBitmap` | Qemu/dump.c:1205-1216 | the closing call flushes the last buffer and nothing past it |
| `DumpBitmap.LengthIsBuffers` | Qemu/dump.c:1783-1785 | `len_dump_bitmap` is exactly the buffers up to the last page frame |
| `DumpBitmap.BitmapIsExact` | Qemu/dump.c:1053-1222 | in both copies, of `len_dump_bitmap` bytes each, bit k is set exactly if page frame k exists |
| `DumpBitmap.BitmapCoversAll` | Qemu/dump.c:1783-1785 | no page frame lies past the bitmap |
| `DumpBitmap.BitmapInFile` | Qemu/dump.c:1053-1222 | in the bytes of the file, bit k of either bitmap is set exactly if page frame k exists |
| `DumpBitmap.PackedByteBit` | Qemu/dump.c:1094-1101 | bit i of byte y of a buffer, taken by shifting, is its entry 8 * y + i |
| `KdumpCache.DataCache.Append` | Qemu/dump.c:1234-1264 | file and buffer together hold the stream; only the area of the stream is written |
| `KdumpCache.DataCache.Sync` | Qemu/dump.c:1234-1264 | afterwards the file holds the whole stream |
| `KdumpPages.PageWriter.AddZeroPage` | Qemu/dump.c:1355-1363 | a zero page is described by the shared page |
| `KdumpPages.PageWriter.AddPlainPage` | Qemu/dump.c:1364-1443 | any other page is described where its compressed or plain bytes go |
| `KdumpPages.PageWriter.Finish` | Qemu/dump.c:1448-1457 | descriptors and data are in the file and fill their areas, and the file is otherwise as it was |
| `KdumpPages.WriteDumpPages` | Qemu/dump.c:1301-1468 | for any outcome of the compressor: one descriptor for each existing page in order, each right about offset, size and flags, filling exactly the gap up to the data; nothing before the descriptors or after the data changes |
| `KdumpPages.ReaderFinds` | Qemu/dump.c:1301-1468 | a reader that decodes offset, size and flags from the 24 bytes in the place of descriptor k, in the byte order of the target, finds page k there: zeros, compressed, or plain; sizes and offsets fit the fields |
| `KdumpPages.DescriptorFields` | Qemu/include/sysemu/dump.h:146-151 | offset, size and flags come back from an encoded descriptor in either byte order |
| `KdumpPages.AreasAreAdjacent` | Qemu/dump.c:864-908 | headers and notes end before the bitmaps, and the bitmaps end where descriptors start exactly if that offset fits 32 bits; otherwise the descriptors start before the bitmaps end |
| `KdumpPages.DescriptorsOnBitmap` | Qemu/dump.c:1005-1011 | an input where it does not: with bitmaps of 2 GiB each the page descriptors are put where the bitmaps start |
| `Kdump.WriteHeaders` | Qemu/dump.c:960-1003 | common header, sub header and notes are where readers look for them |
| `Kdump.WriteBitmaps` | Qemu/dump.c:1172-1222 | both bitmaps are in the file, bit by bit, and nothing outside their areas changes |
| `Kdump.CreateKdumpVmcore` | Qemu/dump.c:1470-1526 | whenever the offsets fit 32 bits, the finished file holds the headers, the bit of every page frame in both bitmaps, a descriptor for every page and the page it describes: no part overwrites another |
| `GdbPackets.MemToHex` | Qemu/gdbstub.c:510-521 | two digits per byte that decode to it |
| `GdbPackets.HexToMem` | Qemu/gdbstub.c:523-531 | decodes such digits |
| `GdbPackets.MemToX` | Qemu/gdbstub.c:614-632 | the escaped form |
| `GdbPackets.FrameRoundTrip` | Qemu/gdbstub.c:567-632 | a framed escaped payload of at most 4095 bytes is accepted once, as itself |
| `GdbPackets.RoundTripBound` | Qemu/gdbstub.c:1639-1641 | and this works exactly up to 4095 bytes |
| `GdbPackets.WrongChecksum` | Qemu/gdbstub.c:1700-1722 | of all pairs of digits exactly the right checksum is accepted |
| `GdbPackets.RunLength` | Qemu/gdbstub.c:1663-1687 | run-length encoding expands to the copies, when they fit |
| `GdbPackets.LineStaysShort` | Qemu/gdbstub.c:1610-1725 | for every byte stream the line stays within 4095 bytes |
| `GdbPackets.GdbState.ReadByte` | Qemu/gdbstub.c:1587-1726 | one step of the stub: receiving, handling and answering a packet, the wait for an acknowledgement with its repeats, and the stop of a running machine |
| `GdbPackets.GdbState.ReadAll` | Qemu/gdbstub.c:1925-1932 | the packets handled and the bytes sent are those of the whole stream, answers and acknowledgements included |
| `GdbPackets.GdbState.PutPacketBinary` | Qemu/gdbstub.c:567-603 | sends the frame and keeps it |
| `GdbPackets.SendAndReceive` | Qemu/gdbstub.c:567-632 | memory bytes escaped and framed by one stub and read by another are handled there as exactly those bytes, if and only if they are at most 4095 |
| `GdbPackets.ConversationRoundTrip` | Qemu/gdbstub.c:1587-1726 | for any series of payloads and any handler: a debugger that acknowledges each answer has exactly its payloads handled, in order, and gets exactly their acknowledgements and answers |
| `BlockPerms.ChildPermsMonotone` | Qemu/block.c:1991-2061 | needing less and sharing more above means needing less and sharing more below |
| `BlockPerms.ChildPermsStable` | Qemu/block.c:1991-2061 | applying a default policy to its own result changes nothing |
| `BlockPerms.SetChildGood` | Qemu/block.c:1958-1968 | setting a checked edge, and all that follows below, keeps parents compatible |
| `BlockPerms.SetNodeGood` | Qemu/block.c:1804-1833 | the same for a node, by recursion over the graph |
| `BlockPerms.CheckUpdateSame` | Qemu/block.c:1896-1941 | a check reads only the edges into nodes below it, so setting one child does not invalidate the check of another |
| `BlockPerms.BlockGraph.GetCumulativePerm` | Qemu/block.c:1835-1849 | the union and the intersection over all parents |
| `BlockPerms.BlockGraph.CheckUpdatePerm` | Qemu/block.c:1896-1941 | compatible with every other parent and feasible below; the recursion keeps the asserted WRITE_UNCHANGED in every shared mask it asks for |
| `BlockPerms.BlockGraph.CheckPerm` | Qemu/block.c:1730-1777 | the recursive check, without side effect |
| `BlockPerms.BlockGraph.SetPerm` | Qemu/block.c:1804-1833 | the recursive setting |
| `BlockPerms.BlockGraph.TrySetPerm` | Qemu/block.c:1975-1989 | success keeps every two parents of a node compatible, nobody writing to a read-only node, and every inner edge that was not set by hand on its policy; failure changes nothing; only the inner edge that was set joins those set by hand |
| `BlockPerms.BlockGraph.RootAttachChild` | Qemu/block.c:2149-2178 | attaches exactly if the check succeeds, changes nothing otherwise, and keeps the same whatever was set by hand before |
| `BlockPerms.BlockGraph.AttachChild` | Qemu/block.c:2180-2204 | the same for an inner edge that closes no cycle, which gets the masks of its owner's policy |
| `BlockPerms.BlockGraph.DetachChild` | Qemu/block.c:2206-2217 | aborts exactly if the check of the node that loses a parent fails, never if the edges below it are no looser than their policies ask, and otherwise keeps the same |
| `BlockPerms.DetachCheckSucceeds` | Qemu/block.c:2134-2141 | the check after a detach succeeds if no inner edge below the node is looser than its policy asks, whatever the rest of the graph |
| `BlockRuns.RunKeeps` | Qemu/block.c:1975-2217 | in every state of every run of set, attach and detach operations from unconnected nodes: all parents compatible, no write to a read-only node, and inner edges off their policy only if set by hand |
| `BlockRuns.FileIsOwned` | Qemu/block.c:2009-2061 | in every state of every run an active format driver has its file to itself: nobody else writes or resizes it, a writable driver can, and it can read unless there is no I/O |
| `BlockRuns.BackingIsOnlyRead` | Qemu/block.c:2009-2061 | a driver takes nothing but consistent reads of its backing file, and that exactly if a parent of the driver does |
| `BlockRuns.BackingIsStable` | Qemu/block.c:2009-2061 | nobody writes or resizes the backing file of an active driver one of whose parents does not go with others writing |
| `BlockRuns.FilterHandsOn` | Qemu/block.c:1991-2006 | a filter takes of its child exactly what some parent takes of it, but for changes of the graph |
| `BlockRuns.DetachInRun` | Qemu/block.c:2134-2141 | along such a run the check after a detach cannot fail unless an edge below the node was set by hand |
| `BlockRuns.CheckFailsIff` | Qemu/block.c:1730-1777 | the recursive check fails exactly if some way down leads to a read-only node asked to write, or to an edge asked for masks another parent of its node does not go with |
| `BlockRuns.DetachAbortsIff` | Qemu/block.c:2134-2141 | so a detach aborts exactly if there is such a way down in the graph without the edge |
| `BlockRuns.LoosenedIsReached` | Qemu/block/mirror.c:650-653 | a run from unconnected nodes: two users and a file are attached to a filter, its edge is set by hand as the mirror job does, and another user is attached to the file |
| `BlockRuns.LoosenedEdgeBreaksDetach` | Qemu/block.c:2134-2141 | at the end of that run a detach aborts |
| `BlockRuns.SharedNodeBreaksSet` | Qemu/block.c:1896-1941 | the tree below is needed: a run from unconnected nodes leads to a filter that uses a file twice, where all is well; it passes the check for an exclusive writer and ends up with two incompatible edges |
| `Icount.RunConserves` | Qemu/cpus.c:238-292 | `qemu_icount` plus the unaccounted parts of the budgets of all vCPUs is the number of instructions they executed together, in every state of every run, however often the clock is read |
| `Icount.PreparedWasCleared` | Qemu/cpus.c:1383-1388 | the assertions of `prepare_icount_for_run` never fail: in every run a vCPU that is prepared finds its counters cleared |
| `Icount.CountIsExact` | Qemu/cpus.c:1399-1414 | after processing, refilling or a read by the running vCPU the count is exact, over all vCPUs |
| `Icount.DeadlineIsMet` | Qemu/cpus.c:1341-1414 | in every run: once a vCPU that was prepared with the limit of a deadline, and ran without an adjustment or a warp, is processed, the clock has reached the deadline exactly if the budget was used up |
| `Icount.AdjustSteers` | Qemu/cpus.c:443-469 | adjusting steers towards real time: however many instructions follow, a clock that was ahead does not get further ahead than without it, and one that was behind not further behind |
| `Icount.RateIsBounded` | Qemu/cpus.c:238-469 | along every stretch of a run without warps, however often the shift is adjusted, an instruction takes between 1 and 1024 ns of the virtual clock |
| `Icount.WarpGoesBackIff` | Qemu/cpus.c:492-531 | a warp turns the clock back exactly if real time is before its start or, in adaptive mode, behind the virtual clock |
| `Icount.AdaptiveWarpCanGoBack` | Qemu/cpus.c:516-525 | a run at the end of which it does, from a reading of 1000 to 500 |
| `Icount.ClockNeverGoesBack` | Qemu/cpus.c:238-531 | along every run without such warps the virtual clock never decreases |
| `Icount.Timers.GetIcountLocked` | Qemu/cpus.c:271-292 | keeps the law; the running vCPU sees every instruction executed, others the accounted ones; the reading never goes back |
| `Icount.Timers.PrepareIcountForRun` | Qemu/cpus.c:1378-1397 | keeps the law; the vCPU may execute exactly the limit, split so that the decrementer holds as much as fits; its counters were cleared, the count is exact and the clock stands still |
| `Icount.Timers.RefillDecrementer` | Qemu/accel/tcg/cpu-exec.c:638-644 | keeps the law; what the vCPU may still execute is unchanged and the count is exact |
| `Icount.Timers.ProcessIcountData` | Qemu/cpus.c:1399-1414 | keeps the law; the count is exact, nothing is outstanding on any vCPU, and the clock shows every instruction |
| `Icount.Timers.IcountAdjust` | Qemu/cpus.c:428-469 | keeps the law and the reading; the clock slows down only if ahead and speeds up only if behind |
| `Icount.Timers.IcountWarpRt` | Qemu/cpus.c:492-531 | keeps the law; the clock moves by the real time since the start of the warp, in adaptive mode to real time if that is less, on a stopped machine not at all; no warp is left |
| `Icount.Timers.StartWarpTimer` | Qemu/cpus.c:626-665 | keeps the law; without sleep the clock jumps exactly to the deadline, otherwise it stands still and a warp has started no later than now |

## Left out

- Work queues of CPUs (`queue_work_on_cpu`, `process_queued_cpu_work`): not modelled.
- The reader of the shared-memory ring is not part of this repository: it is an environment that takes full blocks in ring order under the mutex and never writes data.  Its promptness, and the delivery of condition-variable signals to it, are not modelled.
- Sends so long that `local_buffer_index + size` does not fit 32 bits, sends on a connection that is not open, and NULL buffers.
- Connecting, mapping and tearing down shared memory; opening and closing files; failures of file writes and of thread creation.
- SmiMask.MaskOperations: assumes the little-endian layout the tracer's hosts have, where the two mask bytes are the low half of the variable.
- SmiRing.SleepingWriterGoesOn: says that a sleeping writer can go on as soon as it is woken; that the reader signals it is a promise of the environment.
- Trace output to the console, loggers and timers.
- The enable and disable logic of the threaded writer's callers beyond one producer: `qem_trace_output` is only called while tracing is enabled, and by one thread at a time.
- Topology.Generate: reference counting, RCU reclamation and IOMMU translation are not modelled.  The abort is exact for section numbers; for nodes of the page map it is one way, since how many nodes the pieces share depends on where they lie.
- RamBlocks.RamList.Add: host memory is a yes or no; dirty bitmaps, notifiers and Xen are not modelled.
- ELF headers, notes, sections and program headers of a dump, the more-than-65k-headers layout, and write errors; address arithmetic of `DumpElf` does not overflow.
- KdumpPages.WriteDumpPages: the compressors are arbitrary functions; that decompressing gives the page back is theirs to promise.  Guest blocks are page-aligned, non-empty, ascending and disjoint.
- Kdump.CreateKdumpVmcore: contents of the headers and notes are given; only their places are modelled.  The file is the image a reader of the flattened format builds, and writes do not fail.
- GdbPackets.GdbState.ReadAll: `gdb_handle_packet` is an arbitrary function from packets to at most one reply that fits a packet; commands that start the machine are not modelled.  The sums of `gdb_read_byte` are unbounded; only their low byte is ever used.
- BlockPerms.BlockGraph.TrySetPerm: the subgraph below the changed edge is a tree, as for the other operations on the graph; where a node is reached twice the recursion can leave incompatible parents (`SharedNodeBreaksSet`), so the condition is sufficient and not exact there.  Drivers use the two default policies or have no children, and open flags do not change; `bdrv_replace_node`, reopening, and drivers with checks of their own are not modelled.  `bdrv_abort_perm_update` only notifies drivers and has no effect here.
- BlockPerms.BlockGraph.AttachChild: the new edge closes no cycle.
- Icount.RunConserves: one thread runs the vCPUs, as it does whenever instructions are counted; counts are unbounded, and a vCPU that reads the clock while it cannot do I/O, which ends the program, is not a step.  Record and replay are not modelled.
