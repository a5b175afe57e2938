# A verified model of the IPU4 camera driver and its device

The repository holds a Linux driver for Intel's IPU4 camera unit (`kernel/ipu4/`) and a QEMU device
(`tools/qemu-patches/hw/misc/ipu4.c`) that plays the unit's firmware. The two share page tables,
token rings, cursor and interrupt registers, and a command protocol. This project models both halves in
Dafny and proves what they promise each other, so most of the main results are about agreement: two
lookups of one table, two ends of one ring, a handler and the device that interrupts it, a command and
its responses.

| file | what it models | main results |
|---|---|---|
| `Common.dfy` | integer widths, options, error numbers | shared by the others |
| `PageTable.dfy` | two-level IOMMU table, map, unmap, both lookups | `ViewsAgree`, `MmuInfo.Run`, `MapThenUnmap`, `UnmapExactIff` |
| `DmaLayer.dfy` | DMA buffers: IOVA ranges, pages, PCI mappings, buffer list | `Dma.Alloc`, `Dma.Free`, `AllocFreeCommute` |
| `ScatterList.dfy` | mapping and unmapping scatter lists | `Mapper.MapSg`, `Mapper.SgRoundTrip`, `UnwindHarmlessIff` |
| `TrashRange.dfy` | the trash range of the MMU | `AllocTrash` |
| `DmaRuns.dfy` | any sequence of buffers, lists and the trash range coming and going | `RunSound`, `OrderIrrelevant` |
| `SyscomRing.dfy` | token rings with cursors in shared registers | `StepRefinesFifo`, `RunDelivers`, `ProducerRound`, `ConsumerRound` |
| `Responder.dfy` | the device's answers to command tokens | `Device.HandleSendBump`, `Device.Session`, `Device.LateLoad` |
| `Delivery.dfy` | commands in, interrupts out, for all streams, end to end | `NoResponseLost`, `RunDeliversPrescribed`, `Settle`, `FrameBeforeNotice`, `ActivationDrains` |
| `Handshake.dfy` | what the driver makes of the answers: waits and frame numbers | `AnswerCompletes`, `RunCompletes`, `HandleAnswers` |
| `FrameWriter.dfy` | page-wise frame writing through the IOMMU | `Guest.WritePattern`, `FrameExact` |
| `Isolation.dfy` | what a delivered frame can overwrite | `OwnerFrameIff`, `FrameStaysIff`, `FrameSparesTables` |
| `ComLayout.dfy` | layout of the channel's shared memory and registers | `Prepare`, `RegionsDisjoint`, `ExactFill`, `RequestExactIff`, `DeviceDecodes` |
| `CaptureQueue.dfy` | ownership of capture buffers | `RunAccounts`, `RunConserves`, `Stream.StreamStart`, `Stream.BufQueue` |
| `StreamTable.dfy` | refcounted stream slots | `RunSound`, `HolderKeepsStream`, `HolderFoundByHandle` |
| `ResetProtocol.dfy` | channel exclusion for any number of threads | `ChannelExclusive`, `CountExact`, `EveryCallReturns` |
| `Buttress.dfy` | split counter read, bulk IPC send | `TscLinearizable`, `SendBulk`, `OkMeansCompleted`, `FailureExact` |
| `SofRing.dfy` | frame numbers by time stamp | `LookupExactIff`, `Stream.RunThenLatest` |

`dafny verify dfyconfig.toml` checks the whole project (Dafny 4.11, no libraries).

Conventions. Objects the source updates in place are classes whose methods are tied to a value (a page
map, a ledger, a table) by their contracts; interleavings are step relations over program counters with
an invariant proved for every run. What the kernel or the hardware decides (an allocation fails, a wait
times out, a cursor is read late) is a free choice. In the page table and the DMA layer a ghost counter
`refusals` counts the requests turned down, so that a contract can say that a call fails only if one
was turned down during that very call. Integers are unbounded; 32-bit wrap-around is written out where
the code relies on it or where it matters.

Where the code and its comments differ, the model follows the code:

- `l2_unmap` skips an absent first-level slot without moving its address. `UnmapSkipsToNextTable` is
  an input on which it clears a page nobody asked for, and `UnmapExactIff` says, for every table and
  every range, exactly when it clears what it was asked to.
- The failing start path passes INCOMING and SET_STATE together, so the buffers of the list end up in
  the incoming list and with userspace: `RequeueConservesIff` says exactly when, `RequeueDoubles` is an
  input.
- The start loop and `buf_queue` collect a list of buffers before they ask for a message buffer, and
  return without it if there is none; a restart that fails before it activates its list returns without
  it too. Those buffers are on no list any more (`StartLoses` and `RestartLoses` are inputs).
  `Stream.StreamStart`, `Stream.BufQueue` and `Stream.RestartStream` say exactly when no buffer is lost or
  duplicated by a call, and `RunAccounts` balances what every run lost and doubled.
- When mapping a scatter list fails at its very first entry, the IOVA range stays allocated
  (`Mapper.FirstFailedLeaks` is an input). When it fails later, the unwind unmaps the whole range although
  only part of it was mapped; `UnwindHarmlessIff` says exactly when that leaves all other mappings alone,
  `UnwindHurts` is an input on which it does not.
- The device writes 64 KiB to every capture buffer, which is a scatter list, however small. For states in
  which no two IOVA ranges share a frame, as after every run of calls on bus pages of their own,
  `DriverFrameIff` and `OwnerFrameIff` say exactly when that stays inside the buffer and the dummy page;
  `NeighbourOverwritten` is an input on which it does not.
- Loading a send queue's descriptor forgets the cursor recorded before, against the comment beside it.
  The first cursor write after that is answered from slot 0 on: `Device.LateLoad` and `LateIsAllIff` say
  that all tokens are answered exactly if fewer than a ringful were pushed by then.
- Freeing a DMA buffer with a smaller size than it was allocated with leaves pages and PCI mappings
  behind (`ReleasedExactIff`).
- The channel's sizes are summed in 32 bits; `RequestExactIff` says exactly when the allocation is as
  large as its regions, `RequestTooSmall` is an input. The caller of the configuration ignores its
  -ENOMEM and prepares a channel without queues (`FailedConfigHasNoQueue`).
- The device's message for a frame write that stops early speaks of the buffer's end; with the driver's
  dummy page that stop does not happen (`DriverTablesNeverStop`).
- An event older than the last two is looked up as frame 0 (`LookupExactIff`).

## Model

| member | source | states |
|---|---|---|
| PageTable.StoreKeeps | kernel/ipu4/ipu6-mmu.c:456-461 | writing one second-level entry changes the translation of exactly one IOVA page and no table's presence |
| PageTable.InstallKeeps | kernel/ipu4/ipu6-mmu.c:427-450 | hanging a fresh table of dummy entries under an empty slot changes no translation |
| PageTable.ViewsAgree | tools/qemu-patches/hw/misc/ipu4.c:560-598 | on every IOVA the page map, the driver's shadow lookup and the device's walk agree; an unmapped IOVA walks to the dummy page |
| PageTable.ShadowExact | kernel/ipu4/ipu6-mmu.c:761-775 | in a slot with a table the driver's lookup finds what the page map says, and the dummy page where it says nothing |
| PageTable.TouchedIsRange | kernel/ipu4/ipu6-mmu.c:364-397 | if every slot of the range has a table, the pages unmap writes are exactly the range, clipped at 2^32 |
| PageTable.TouchedCoversPrefix | kernel/ipu4/ipu6-mmu.c:364-397 | pages at the front of the range whose slots all have tables are cleared, whatever lies behind them |
| PageTable.MappedIsPresent | kernel/ipu4/ipu6-mmu.c:364-397 | a fully mapped range has a table in every slot, so unmapping it is exact |
| PageTable.TouchedBehindAligned | kernel/ipu4/ipu6-mmu.c:370-375 | after a skipped slot with an aligned cursor, the rest is right iff every later table lies inside the range |
| PageTable.TouchedBehindOffset | kernel/ipu4/ipu6-mmu.c:370-375 | after a skipped slot with a cursor inside a slot, the rest is right iff no later slot has a table |
| PageTable.UnmapExactIff | kernel/ipu4/ipu6-mmu.c:354-401 | for every table and range, unmap writes exactly the requested present pages iff a check on the present slots holds |
| PageTable.BehindStays | kernel/ipu4/ipu6-mmu.c:370-375 | after a skipped slot with an aligned cursor, nothing from the end of the range on is written iff every later table lies below it |
| PageTable.UnmapStaysIff | kernel/ipu4/ipu6-mmu.c:354-401 | if the first slot has a table, unmap writes no page outside the range iff the same check on the present slots holds |
| PageTable.UnmapSkipsToNextTable | kernel/ipu4/ipu6-mmu.c:370-375 | with slot 0 absent and slot 1 present, unmapping page 0 clears page 1024 |
| PageTable.ClearUnmapped | kernel/ipu4/ipu6-mmu.c:483-489 | rolling back over a range that was unmapped changes nothing |
| PageTable.MmuInfo.constructor | kernel/ipu4/ipu6-mmu.c:672-725 | fresh tables implement the empty page map, and no bus frame is used twice |
| PageTable.MmuInfo.EnsureTable | kernel/ipu4/ipu6-mmu.c:426-454 | a slot gets a table, on a bus frame that nothing else uses, without changing any translation, or, if the kernel refuses, nothing changes |
| PageTable.MmuInfo.ClearRow | kernel/ipu4/ipu6-mmu.c:376-392 | the inner unmap loop clears exactly the requested part of one slot |
| PageTable.MmuInfo.L2Unmap | kernel/ipu4/ipu6-mmu.c:354-401 | the page map loses exactly the pages the skipping cursor reaches; tables stay |
| PageTable.MmuInfo.FillRow | kernel/ipu4/ipu6-mmu.c:456-472 | the inner map loop extends the page map by consecutive frames in one slot |
| PageTable.MmuInfo.L2Map | kernel/ipu4/ipu6-mmu.c:403-490 | success maps the whole range; failure at any 4 MiB boundary rolls back to the old map minus the range written; it fails only for a table refused in this call |
| PageTable.MmuInfo.IovaToPhys | kernel/ipu4/ipu6-mmu.c:761-775 | on every IOVA whose slot has a table, mapped or not, the lookup is the page map's frame or the dummy page |
| PageTable.MmuInfo.Map | kernel/ipu4/ipu6-mmu.c:801-828 | an unaligned call changes nothing; a range that was unmapped is mapped in full or left untouched everywhere |
| PageTable.MmuInfo.Unmap | kernel/ipu4/ipu6-mmu.c:777-799 | a mapped range is taken out exactly; an unaligned call changes nothing |
| PageTable.MmuInfo.Run | kernel/ipu4/ipu6-mmu.c:777-828 | after any sequence of calls, each free to fail, the tables implement the map obtained by replaying the effects; every effect is explained by the page map and the tables its call found, so unmapping a mapped range removes exactly that range |
| PageTable.MapThenUnmap | kernel/ipu4/ipu6-mmu.c:777-828 | anywhere in such a run, mapping an unmapped range and unmapping it again gives back the page map |
| PageTable.MmuInfo.RunThenWalk | tools/qemu-patches/hw/misc/ipu4.c:560-598 | after any sequence of calls the device's walk of any IOVA finds what the replay says, and the dummy page where nothing is mapped |
| DmaLayer.WithBufferBalanced | kernel/ipu4/ipu6-dma.c:213-218 | adding a fresh buffer keeps every buffer's pages, frames, IOVA range and translations consistent and apart |
| DmaLayer.WithoutBufferBalanced | kernel/ipu4/ipu6-dma.c:244-294 | so does releasing one |
| DmaLayer.RangeIsolated | kernel/ipu4/ipu6-dma.c:185-207 | a new IOVA range on frames of its own, whatever it is for, leaves all ranges on frames of their own |
| DmaLayer.WithBufferIsolated | kernel/ipu4/ipu6-dma.c:185-207 | a fresh buffer is such a range |
| DmaLayer.ReleasedIsolated | kernel/ipu4/ipu6-dma.c:244-294 | releasing a buffer, with its size or a smaller one, takes no frame from a page that is still mapped |
| DmaLayer.AllocFreeRoundTrip | kernel/ipu4/ipu6-dma.c:244-294 | releasing the buffer just allocated restores IOVA ranges, page map, PCI mappings and pages exactly |
| DmaLayer.AllocFreeCommute | kernel/ipu4/ipu6-dma.c:152-294 | an allocation and the release of any other buffer commute |
| DmaLayer.AllocFreeAnyOrder | kernel/ipu4/ipu6-dma.c:152-294 | of two buffers the one allocated first can be released first, and what is left is as if it had never been |
| DmaLayer.ReleasedExactIff | kernel/ipu4/ipu6-dma.c:244-294 | a release is the undo of the allocation iff its size is the one of the allocation |
| DmaLayer.ReleasedAt | kernel/ipu4/ipu6-dma.c:244-294 | with a smaller size exactly the first pages and their PCI mappings are given back |
| DmaLayer.CoverUnique | kernel/ipu4/ipu6-dma.c:29-40 | at most one buffer covers an address, and the IOVA range found for it is that buffer's |
| DmaLayer.Dma.FillBlock | kernel/ipu4/ipu6-dma.c:80-85 | a split block becomes consecutive pages of the array |
| DmaLayer.Dma.AllocShrinking | kernel/ipu4/ipu6-dma.c:72-78 | the block granted fits the rest; none is granted only if even a single page was refused |
| DmaLayer.Dma.AllocBuffer | kernel/ipu4/ipu6-dma.c:58-99 | distinct fresh pages, or the page allocator exactly as before |
| DmaLayer.Dma.FreeBuffer | kernel/ipu4/ipu6-dma.c:101-112 | every page of the buffer goes back and no other |
| DmaLayer.Dma.MapPages | kernel/ipu4/ipu6-dma.c:185-207 | a prefix of the pages is mapped in order, on bus frames that no buffer, table or dummy page uses, all of them unless something was refused in this call |
| DmaLayer.Dma.UnwindPages | kernel/ipu4/ipu6-dma.c:222-231 | the unwind restores page map and PCI mappings exactly |
| DmaLayer.Dma.GetVmInfo | kernel/ipu4/ipu6-dma.c:29-40 | the first buffer on the list that covers the address, if any |
| DmaLayer.Dma.Alloc | kernel/ipu4/ipu6-dma.c:152-241 | success adds one buffer of distinct fresh pages with IOVA page k on page k's frame; failure at any stage restores everything and happens only if the kernel refused something in this call; ranges that shared no frame still share none |
| DmaLayer.Dma.Free | kernel/ipu4/ipu6-dma.c:244-294 | an unknown handle changes nothing; otherwise the buffer at the handle goes, exactly and with all it held iff the size is the one it was allocated with; ranges that shared no frame still share none |
| ScatterList.EntriesDisjoint | kernel/ipu4/ipu6-dma.c:408-426 | entries occupy consecutive disjoint IOVA ranges that fill the allocated one |
| ScatterList.SgMapKeys | kernel/ipu4/ipu6-dma.c:408-426 | mapping a list adds exactly its range and leaves every other page alone |
| ScatterList.SgMapAt | kernel/ipu4/ipu6-dma.c:408-426 | page j of entry k translates to page j of the entry's original bus range |
| ScatterList.SgBalanced | kernel/ipu4/ipu6-dma.c:374-436 | mapping a list keeps the books of all DMA buffers consistent |
| ScatterList.SgIsolated | kernel/ipu4/ipu6-dma.c:374-436 | mapping a list on new bus pages leaves all ranges on frames of their own |
| ScatterList.MovedRestores | kernel/ipu4/ipu6-dma.c:354-362 | reading the table at a moved entry gives back the original entry |
| ScatterList.SgUndo | kernel/ipu4/ipu6-dma.c:364-370 | unmapping the range takes back exactly what mapping the list added |
| ScatterList.PartialUnwind | kernel/ipu4/ipu6-dma.c:432-435 | unwinding a list mapped in part takes that part back, and otherwise only what the unmap cursor reaches |
| ScatterList.UnwindHarmlessIff | kernel/ipu4/ipu6-dma.c:432-435 | when the first slot has a table, as it does in every unwind, unmapping the whole range leaves every page map outside the range unchanged iff a check on the slots with tables holds |
| ScatterList.UnwindHurts | kernel/ipu4/ipu6-dma.c:432-435 | entries of 1024 pages and one page at IOVA 0, slots 0 and 2 with tables and 1 without: the unwind clears page 2048 of another buffer |
| ScatterList.Mapper.UnmapSg | kernel/ipu4/ipu6-dma.c:330-371 | an empty list or one in no IOVA range changes nothing; otherwise each entry gets the bus address the table holds, the dummy page's where nothing is mapped, and the whole range is unmapped and released; ranges that shared no frame still share none |
| ScatterList.Mapper.MapEntries | kernel/ipu4/ipu6-dma.c:408-426 | a prefix of the entries is mapped and moved; it stops at the first entry that is unaligned, or lacks a table and is refused one |
| ScatterList.Mapper.UnwindEntries | kernel/ipu4/ipu6-dma.c:330-371 | after a failure at entry i every address is back; the range and the first i entries' pages are gone, except that the range stays when i is 0 |
| ScatterList.Mapper.MapSg | kernel/ipu4/ipu6-dma.c:374-436 | list, IOVA ranges and page map are stated for each of the five ways it ends, and which way that is: -EFAULT iff an entry has an offset; stopping at entry i means that those before it are aligned and that it is unaligned, or lacks a table and was refused one in this call; the IOVA range is kept iff i is 0; the books are as before if the unwind is harmless; if the list is on new bus pages, ranges that shared no frame still share none |
| ScatterList.Mapper.FirstFailedLeaks | kernel/ipu4/ipu6-dma.c:398-435 | a single page at an odd address: once it has its IOVA page, that page stays allocated with nothing mapped |
| ScatterList.Mapper.SgRoundTrip | kernel/ipu4/ipu6-dma.c:330-436 | mapping and unmapping a list leaves list and books as they were |
| TrashRange.TrashUnwind | kernel/ipu4/ipu6-mmu.c:560-568 | unmapping the whole range after a failure takes the mapped part back and otherwise only what the cursor reaches, nothing if the check on the slots with tables holds |
| TrashRange.AllocTrash | kernel/ipu4/ipu6-mmu.c:511-568 | success maps 8 MiB to one new frame; failure, which takes a refusal, gives range and frame back; ranges that shared no frame still share none |
| DmaRuns.SgMapIsMapAll | kernel/ipu4/ipu6-dma.c:408-426 | mapping a list entry by entry is mapping its bus frames page by page |
| DmaRuns.OwnersDecide | kernel/ipu4/ipu6-dma.c:152-436 | IOVA ranges and page map are determined by the buffers and lists mapped |
| DmaRuns.StepKeepsSound | kernel/ipu4/ipu6-dma.c:152-436 | every call, and every DMA mapping of the host in between, keeps the books balanced, the ranges on frames of their own, and every range, page and translation some buffer's, list's or the trash range's |
| DmaRuns.RunSound | kernel/ipu4/ipu6-dma.c:152-436 | so after any run of calls |
| DmaRuns.OrderIrrelevant | kernel/ipu4/ipu6-dma.c:152-436 | two runs that leave the same buffers and lists leave the same IOVA ranges and page map, whatever came and went in whatever order |
| DmaRuns.CallAlloc | kernel/ipu4/ipu6-dma.c:152-241 | an allocation is such a step, or changes nothing |
| DmaRuns.CallFree | kernel/ipu4/ipu6-dma.c:244-294 | freeing any buffer by its handle and size is such a step |
| DmaRuns.CallMap | kernel/ipu4/ipu6-dma.c:374-436 | mapping a list on new bus pages is such a step however it ends, except for an unwind that goes astray |
| DmaRuns.CallUnmap | kernel/ipu4/ipu6-dma.c:330-371 | unmapping a list, whatever came in between, is such a step and gives every entry its address back |
| DmaRuns.CallTrash | kernel/ipu4/ipu6-mmu.c:511-568 | so is setting up the trash range |
| SyscomRing.SlotAhead | kernel/ipu4/ipu6-fw-com.c:359-369 | after d bumps, at most one turn, the cursor is d slots further modulo one wrap |
| SyscomRing.CountsExact | kernel/ipu4/ipu6-fw-com.c:345-348 | the driver's two packet counts are the number of free and of waiting tokens |
| SyscomRing.FillSafe | kernel/ipu4/ipu6-fw-com.c:331-356 | filling the slot at the write cursor overwrites no unread token |
| SyscomRing.StepKeepsInv | kernel/ipu4/ipu6-fw-com.c:331-408 | every single register or slot access of either side keeps the invariant |
| SyscomRing.StepRefinesFifo | kernel/ipu4/ipu6-fw-com.c:331-408 | every access is a step of a FIFO of capacity size - 1; only the two cursor writes change it, by the token filled and the oldest token read |
| SyscomRing.StaleReadsUnderReport | kernel/ipu4/ipu6-fw-com.c:372-393 | a late cursor read only under-reports room or content |
| SyscomRing.RunDelivers | kernel/ipu4/ipu6-fw-com.c:331-408 | in every run the tokens received are a prefix of those sent and the rest waits in the ring |
| SyscomRing.ProducerRound | kernel/ipu4/ipu6-fw-com.c:331-369 | from every state of every run the producer's accesses alone append the token iff there is room, and otherwise change nothing |
| SyscomRing.ConsumerRound | kernel/ipu4/ipu6-fw-com.c:372-408 | the consumer's alone receive the oldest token iff there is one |
| SyscomRing.Queue.SendGetToken | kernel/ipu4/ipu6-fw-com.c:331-356 | a slot is granted iff the queue holds fewer than its capacity |
| SyscomRing.Queue.SendToken | kernel/ipu4/ipu6-fw-isys.c:94-128 | -EINVAL iff the opcode is unknown; otherwise the token is appended, or -EBUSY with nothing changed iff the queue is full |
| SyscomRing.Queue.RecvGetToken | kernel/ipu4/ipu6-fw-com.c:372-393 | the oldest token iff there is one |
| SyscomRing.Queue.RecvPutToken | kernel/ipu4/ipu6-fw-com.c:396-408 | the oldest token is removed |
| Responder.PushedCount | tools/qemu-patches/hw/misc/ipu4.c:948 | the device's modular distance between two cursor values is the number of tokens pushed, across the wrap |
| Responder.PrescribedConcat | tools/qemu-patches/hw/misc/ipu4.c:931-1034 | responses to two batches are the responses to the first, then to the second |
| Responder.ScriptIsFlatMap | tools/qemu-patches/hw/misc/ipu4.c:952-1033 | answering slot by slot in ring order is answering the tokens in push order |
| Responder.Device.Post | tools/qemu-patches/hw/misc/ipu4.c:752-811 | the response is appended to the ring's content while the driver keeps up, with both status bits set; nothing happens if the receive queue cannot be used; no pin is reported before its frame is in memory |
| Responder.Device.DeliverPin | tools/qemu-patches/hw/misc/ipu4.c:911-919 | a pin with an address gets the pattern in its buffer and then its response, a pin without one nothing |
| Responder.Device.DeliverFrame | tools/qemu-patches/hw/misc/ipu4.c:872-920 | the receiver's status bit and SOF first, then for each pin with an address, in pin order, the frame in its buffer and one PIN_DATA_READY; nothing if the pins cannot be read |
| Responder.Device.StartAndCapture | tools/qemu-patches/hw/misc/ipu4.c:980-994 | the acknowledgement, then the frame |
| Responder.Device.Respond | tools/qemu-patches/hw/misc/ipu4.c:969-1032 | exactly the responses prescribed for the opcode |
| Responder.Device.HandleSendBump | tools/qemu-patches/hw/misc/ipu4.c:931-1034 | one cursor write is answered by the responses to exactly the tokens from the cursor seen, or from slot 0 if the descriptor is loaded by this write, up to the new one, in order; without a descriptor it is only recorded |
| Responder.Device.GetSendQueue | tools/qemu-patches/hw/misc/ipu4.c:690-716 | a descriptor that is loaded now resets the cursor seen to 0 |
| Responder.LatestTokens | tools/qemu-patches/hw/misc/ipu4.c:952-967 | a window of the ring is the tokens last filled into it, however often the cursor went round |
| Responder.LateTokens | tools/qemu-patches/hw/misc/ipu4.c:713-714 | from slot 0 up to the cursor are the tokens since the cursor last passed slot 0 |
| Responder.LateIsAllIff | tools/qemu-patches/hw/misc/ipu4.c:938-943 | those are all tokens ever pushed iff they are fewer than a ringful |
| Responder.Device.LateLoad | tools/qemu-patches/hw/misc/ipu4.c:931-1034 | after any cursor writes without a descriptor, the first with one is answered by the responses to those tokens |
| Responder.Device.Session | tools/qemu-patches/hw/misc/ipu4.c:931-1034 | over any sequence of cursor writes, the responses posted are the concatenation over all tokens pushed |
| Delivery.CheckExact | kernel/ipu4/ipu6-fw-com.c:372-393 | the handler finds a response iff one was posted when it read the write cursor |
| Delivery.TakeExact | kernel/ipu4/ipu6-isys.c:1383-1399 | what it takes is the oldest unhandled response |
| Delivery.HandlerKeepsInv | kernel/ipu4/ipu6-buttress.c:354-414 | every register access of the two handlers keeps the invariant |
| Delivery.DeviceKeepsInv | tools/qemu-patches/hw/misc/ipu4.c:752-1034 | so does every access of the device, reading a token, writing a frame or posting, wherever it falls between them |
| Delivery.FetchExact | tools/qemu-patches/hw/misc/ipu4.c:952-1033 | reading the next token of the ring turns it into its prescribed responses, before those of the rest |
| Delivery.PrescribedOfStream | tools/qemu-patches/hw/misc/ipu4.c:969-1032 | every response to a token names the stream of its ring |
| Delivery.FillKeepsInv | kernel/ipu4/ipu6-fw-com.c:331-369 | filling a slot of any ring, also while the device works on another one, disturbs no token that is still to be answered |
| Delivery.BumpKeepsInv | tools/qemu-patches/hw/misc/ipu4.c:931-951 | one cursor write asks for exactly the responses to the tokens filled since the last one |
| Delivery.StepKeepsInv | kernel/ipu4/ipu6-isys.c:375-424 | so does every step of the whole system |
| Delivery.NoResponseLost | kernel/ipu4/ipu6-isys.c:387-419 | in every run, handler idle, device not posting, a response unhandled: SW and IS bits are pending, also after the 100-iteration limit, and without it an interrupt is on its way |
| Delivery.RunDeliversPrescribed | kernel/ipu4/ipu6-isys.c:1383-1507 | in every run, over every interleaving of driver, device and handlers, for every stream: its responses among those handled are a prefix of those prescribed for the tokens published on its send ring, and all of them once nothing is left to do; no other response is handled |
| Delivery.DeviceProgress | tools/qemu-patches/hw/misc/ipu4.c:952-1033 | every step of the device lowers a lexicographic measure over tokens, responses and accesses |
| Delivery.DeviceMoves | tools/qemu-patches/hw/misc/ipu4.c:952-1033 | the device can step in every state in which it has work and is not waiting for room |
| Delivery.ReceiverFirst | tools/qemu-patches/hw/misc/ipu4.c:897-910 | a frame start sets the receiver's bit before it is posted, and nothing else of the device does |
| Delivery.FillMoves | kernel/ipu4/ipu6-fw-com.c:331-356 | a slot can be filled iff fewer than all but one of the ring's slots are unpublished |
| Delivery.BumpMoves | kernel/ipu4/ipu6-fw-com.c:359-369 | once the last cursor write was answered the cursor can be written, which publishes what was filled in |
| Delivery.Settle | tools/qemu-patches/hw/misc/ipu4.c:931-1034 | from every reachable state with the handler not about to be cut off, device and handlers alone can reach a state in which every command published is answered and every answer handled |
| Delivery.SettledIsAll | kernel/ipu4/ipu6-isys.c:1383-1507 | in such a state the responses handled for a stream are all those prescribed for the commands published on its ring |
| Delivery.FrameBeforeNotice | tools/qemu-patches/hw/misc/ipu4.c:911-919 | every PIN_DATA_READY the handler has taken was published when the frame was already in its buffer |
| Delivery.HandlerProgress | kernel/ipu4/ipu6-buttress.c:360-414 | while nobody else moves, each access of the handler lowers a lexicographic measure |
| Delivery.Drain | kernel/ipu4/ipu6-buttress.c:339-424 | the handlers run to completion while the device is silent and leave no status bit unless cut off |
| Delivery.ActivationDrains | kernel/ipu4/ipu6-buttress.c:339-424 | one activation terminates below the limit with every posted response handled |
| Handshake.AnswerShape | tools/qemu-patches/hw/misc/ipu4.c:969-1032 | a command waited for is acknowledged first, by a response with the command's own number; then, if it captures, comes its frame; and nothing else |
| Handshake.FrameExact | tools/qemu-patches/hw/misc/ipu4.c:872-920 | a frame is one FRAME_SOF and then one PIN_DATA_READY for each pin with an address, in pin order, with that pin's address and buffer |
| Handshake.AnswerCompletes | kernel/ipu4/ipu6-isys.c:1433-1452 | the answer to every OPEN, START, START_AND_CAPTURE, FLUSH and CLOSE completes exactly the wait its sender is in, once; that to a CAPTURE none |
| Handshake.RespondCompletes | kernel/ipu4/ipu6-isys-video.c:650-796 | so do the responses the device's dispatch posts |
| Handshake.RunCompletes | kernel/ipu4/ipu6-isys-video.c:650-796 | in every run, on every stream, the waits completed are those of the commands published, each once and in order, and all of them once everything is settled |
| Handshake.NumbersExact | tools/qemu-patches/hw/misc/ipu4.c:896-919 | on any sequence of commands the pins of the k-th frame come after exactly k + 1 frame starts |
| Handshake.HandleAnswers | kernel/ipu4/ipu6-isys-queue.c:849-861 | when the driver handles the answers to any sequence of commands, every buffer of the k-th frame gets frame number k |
| FrameWriter.WalkInPage | tools/qemu-patches/hw/misc/ipu4.c:560-598 | inside one page the device's walk only differs in the offset |
| FrameWriter.ChunkIsBytes | tools/qemu-patches/hw/misc/ipu4.c:646-671 | a chunk translated once is its bytes translated one by one |
| FrameWriter.Guest.FillChunk | tools/qemu-patches/hw/misc/ipu4.c:662-664 | the chunk holds the pattern of its offset |
| FrameWriter.Guest.WriteChunk | tools/qemu-patches/hw/misc/ipu4.c:646-671 | one round is the bytes of its page, or nothing where the page does not translate or cannot be written |
| FrameWriter.Guest.WritePattern | tools/qemu-patches/hw/misc/ipu4.c:640-674 | for every base, length, sequence number, table and set of unwritable pages, the page-wise writer is the byte-wise one, including where it stops |
| FrameWriter.ScatterExact | tools/qemu-patches/hw/misc/ipu4.c:640-674 | at distinct addresses every byte stays where it was stored and nothing else changes |
| FrameWriter.FrameExact | tools/qemu-patches/hw/misc/ipu4.c:640-674 | if the pages are distinct, byte k of the translated prefix is (k + seq) mod 256 at its own translation and no other address changes |
| FrameWriter.FrameInHolds | tools/qemu-patches/hw/misc/ipu4.c:640-674 | in a buffer that was just filled every byte that translates holds the pattern |
| FrameWriter.DriverTablesNeverStop | tools/qemu-patches/hw/misc/ipu4.c:654-660 | on the driver's tables no byte fails to translate; unmapped pages receive theirs in the dummy page |
| Isolation.FrameStaysIff | tools/qemu-patches/hw/misc/ipu4.c:640-674 | for every table, base, length and set of IOVA pages whose frames nobody shares: the frame changes only bytes of those pages and the dummy page, whatever memory held, iff it reaches no other mapped page |
| Isolation.RangesUnshared | kernel/ipu4/ipu6-dma.c:152-436 | where no two ranges share a frame, none shares one with a range of any kind or has the dummy page's |
| Isolation.RangeFrameIff | tools/qemu-patches/hw/misc/ipu4.c:911-919 | a frame delivered to the first page of a range, as to every capture buffer, changes only that range and the dummy page iff no other page is mapped among those the frame spans from there on |
| Isolation.NeighbourOverwritten | kernel/ipu4/ipu6-isys-queue.c:27-43 | two capture buffers of one page each, mapped as scatter lists into neighbouring pages: the frame for the first overwrites the second |
| Isolation.DriverFrameIff | tools/qemu-patches/hw/misc/ipu4.c:911-919 | the same in every state of the DMA layer in which no two ranges share a frame, on the tables it has set up |
| Isolation.OwnerFrameIff | kernel/ipu4/ipu6-isys-queue.c:322-332 | and so for every buffer and list mapped after any run of calls on new bus pages |
| Isolation.FrameSparesTables | tools/qemu-patches/hw/misc/ipu4.c:640-674 | in every state in which mapped pages are on frames the host has handed out, shared or not, no frame, at any address, overwrites a page table |
| Isolation.UnmappedReachesNobody | kernel/ipu4/ipu6-mmu.c:672-725 | in every such state an unmapped IOVA reaches no mapped page and no table |
| ComLayout.Resources.QueueInit | kernel/ipu4/ipu6-fw-com.c:137-157 | a queue takes its buffer and two registers off what is left, wrapping at the widths of the fields |
| ComLayout.Resources.InitQueues | kernel/ipu4/ipu6-fw-com.c:245-263 | for every group, descriptor i starts behind the buffers before it and has registers 2i and 2i + 1 of its group, modulo the widths |
| ComLayout.SumSizes | kernel/ipu4/ipu6-fw-com.c:201-207 | the 32-bit accumulation is the sum of the buffer sizes modulo 2^32, for every group |
| ComLayout.Prepare | kernel/ipu4/ipu6-fw-com.c:159-266 | for every configuration, the size asked for and every address of the context in closed form with its wrap-around, and the plain layout where nothing overflows; nothing if the allocation fails |
| ComLayout.LayoutFits | kernel/ipu4/ipu6-fw-com.c:186-263 | where no size or address leaves its width the wrapped layout is the plain one |
| ComLayout.RequestExactIff | kernel/ipu4/ipu6-fw-com.c:201-211 | the allocation is as large as its regions iff the token buffers take less than 4 GiB |
| ComLayout.RequestTooSmall | kernel/ipu4/ipu6-fw-com.c:201-211 | 2^31 slots of two bytes get no byte |
| ComLayout.SameOffsets | kernel/ipu4/ipu6-fw-com.c:219-263 | host and device see every region at the same offset, behind the regions before it |
| ComLayout.OffsetsEnd | kernel/ipu4/ipu6-fw-com.c:186-209 | the region lengths add up to the allocated size |
| ComLayout.RegionsDisjoint | kernel/ipu4/ipu6-fw-com.c:219-263 | no two regions overlap, on either side |
| ComLayout.ExactFill | kernel/ipu4/ipu6-fw-com.c:186-263 | a byte lies in some region iff it lies in the allocation |
| ComLayout.SlotsDisjoint | kernel/ipu4/ipu6-fw-com.c:137-157 | token slots, of one queue or of two, never share a byte |
| ComLayout.RegistersDistinct | kernel/ipu4/ipu6-fw-com.c:152-156 | no two cursors share a register and none is a management register |
| ComLayout.CfgInit | kernel/ipu4/ipu6-fw-isys.c:253-361 | for any requested number of streams, one proxy, one device and the clamped number of message queues, with their sizes, and the SRAM pages; a failed allocation leaves the zeroed configuration |
| ComLayout.DeviceAdmits | tools/qemu-patches/hw/misc/ipu4.c:752-766 | for any number of streams, which size and token size every queue has; the message queues take the device's token and the return queue its response |
| ComLayout.PartitionEqual | kernel/ipu4/ipu6-fw-isys.c:311-320 | all streams get the same share of SRAM, blocks without a stream none |
| ComLayout.PartitionFits | kernel/ipu4/ipu6-fw-isys.c:311-320 | the shares of SRAM never exceed the pages there are and leave less than one page per stream |
| ComLayout.FailedConfigHasNoQueue | kernel/ipu4/ipu6-fw-isys.c:363-381 | a channel prepared after a failed configuration has no queue |
| ComLayout.DeviceDecodes | tools/qemu-patches/hw/misc/ipu4.c:1505-1514 | with eight message queues the decoder recognises exactly their write cursors; the return queue is at 28 and 29 |
| ComLayout.SendCursorDecodes | tools/qemu-patches/hw/misc/ipu4.c:1505-1514 | for any number of message queues a send cursor decodes to its own stream, proxy and device cursors to none |
| ComLayout.ReceiveCursorIgnored | tools/qemu-patches/hw/misc/ipu4.c:1505-1514 | no read cursor of a return queue is taken for a send cursor |
| CaptureQueue.StepConserves | kernel/ipu4/ipu6-isys-queue.c:154-319 | no plain critical section loses or duplicates a buffer |
| CaptureQueue.StepAccounts | kernel/ipu4/ipu6-isys-queue.c:154-507 | each critical section, also the requeue with SET_STATE and the exits without a message, changes the total by exactly what it doubles and loses |
| CaptureQueue.StepKeepsValid | kernel/ipu4/ipu6-isys-queue.c:154-319 | a buffer stays in lists of its own queue |
| CaptureQueue.RunConserves | kernel/ipu4/ipu6-isys-queue.c:154-615 | in every state of every run of plain steps each buffer is in exactly one of userspace, incoming, active and hand lists |
| CaptureQueue.RunAccounts | kernel/ipu4/ipu6-isys-queue.c:154-615 | in every state of every run, what there is and what was lost is what there was and what was doubled |
| CaptureQueue.RequeueConservesIff | kernel/ipu4/ipu6-isys-queue.c:154-200 | requeueing keeps the partition iff the list is empty or its flags name exactly one destination |
| CaptureQueue.RequeueDoubles | kernel/ipu4/ipu6-isys-queue.c:409-416 | a buffer that INCOMING and SET_STATE put in two places |
| CaptureQueue.PoppedThenBack | kernel/ipu4/ipu6-isys-queue.c:293-299 | putting back what was collected restores every incoming list as the same sequence |
| CaptureQueue.NewestLast | kernel/ipu4/ipu6-isys-queue.c:446-448 | a buffer queued is captured after all those of its queue that were there before it |
| CaptureQueue.FlushedAt | kernel/ipu4/ipu6-isys-queue.c:240-274 | flushing puts the active buffers behind all others and turns their order around |
| CaptureQueue.ShiftMore | kernel/ipu4/ipu6-isys-queue.c:382-405 | one more capture moves the oldest buffer of every queue, in order |
| CaptureQueue.Stream.BufferListQueue | kernel/ipu4/ipu6-isys-queue.c:154-200 | every buffer of the list goes to the place or places the flags name, in order |
| CaptureQueue.Stream.BufferListGet | kernel/ipu4/ipu6-isys-queue.c:281-319 | the oldest buffer of every queue, or, iff some queue is empty, all lists unchanged |
| CaptureQueue.Stream.Captures | kernel/ipu4/ipu6-isys-queue.c:382-405 | after k captures the k oldest buffers of every queue are active in order; which of the three exits is taken, and after how many |
| CaptureQueue.Stream.StartLoop | kernel/ipu4/ipu6-isys-queue.c:382-405 | ends after as many captures as the shortest incoming list iff messages and ring space suffice; without a message one more buffer of every queue is lost |
| CaptureQueue.Stream.BufReady | kernel/ipu4/ipu6-isys-queue.c:932-995 | the oldest active buffer at the address, iff there is one, leaves its list, which keeps the others in order, and goes to userspace |
| CaptureQueue.Stream.Flush | kernel/ipu4/ipu6-isys-queue.c:240-274 | no active buffer remains; those of streaming queues return to the incoming list, the others to userspace |
| CaptureQueue.Stream.ReturnBuffers | kernel/ipu4/ipu6-isys-queue.c:554-615 | both lists end up empty, and a reset is asked for iff the active one was not |
| CaptureQueue.Stream.StreamStart | kernel/ipu4/ipu6-isys-queue.c:364-420 | after a success the first list and, for k captures, the k oldest buffers of every queue are active in order; after a failure nothing is active and the incoming lists are stated; no buffer is lost or duplicated iff there was nothing to requeue, it had been activated or no error state was asked for, and a successful start does not run out of messages |
| CaptureQueue.Stream.BufQueue | kernel/ipu4/ipu6-isys-queue.c:422-507 | without a buffer in every queue it only adds the new one; on a running stream the oldest buffer of every queue moves to the head of its active list; where the lists end is stated for a start that succeeds, one that fails and a missing message; no buffer is lost or duplicated iff no list was collected, or it got a message and was captured or activated by a start that does not run out of messages |
| CaptureQueue.StartLoses | kernel/ipu4/ipu6-isys-queue.c:388-393 | one buffer, no message: a successful start leaves it on no list |
| CaptureQueue.Stream.RestartStream | kernel/ipu4/ipu6-isys-queue.c:717-788 | a list is collected iff the restart gets that far and every queue has a buffer; if it is activated, the oldest buffer of every queue is at the head of its active list; no buffer is lost iff none was collected or it was activated |
| CaptureQueue.RestartLoses | kernel/ipu4/ipu6-isys-queue.c:766-777 | one buffer, the restart fails before activation: it is on no list any more |
| StreamTable.StepKeepsValid | kernel/ipu4/ipu6-isys-video.c:942-1063 | every operation, also a put by anybody, keeps live identities different |
| StreamTable.GetExact | kernel/ipu4/ipu6-isys-video.c:970-1005 | a get returns the live slot with that sub-device and channel or claims a free one and sets them; no other slot changes; it fails iff all slots are taken by others |
| StreamTable.ByHandleExact | kernel/ipu4/ipu6-isys-video.c:1008-1030 | a query by handle gives that very slot and one more reference to it iff it is live; otherwise NULL and no change |
| StreamTable.BySourceExact | kernel/ipu4/ipu6-isys-video.c:1033-1063 | a query by source gives the first live slot whose source and channel are those asked for, and one more reference to it; NULL without one or for a negative source |
| StreamTable.SetupThenQuery | kernel/ipu4/ipu6-isys-video.c:805-830 | after a live stream was set up with a source, a query by that source and its channel finds one with them |
| StreamTable.StepKeepsIdentity | kernel/ipu4/ipu6-isys-video.c:942-1063 | no operation changes whose stream a live slot is |
| StreamTable.RunValid | kernel/ipu4/ipu6-isys-video.c:942-1063 | in every run, with puts by anybody, live slots differ |
| StreamTable.RunIdentity | kernel/ipu4/ipu6-isys-video.c:942-1063 | over any stretch in which a slot stays live its identity stays the same |
| StreamTable.ActKeepsSound | kernel/ipu4/ipu6-isys-video.c:942-1063 | every get, query, put and setup by a holder keeps each count equal to the number of its holders and every holder's slot live and its own |
| StreamTable.RunSound | kernel/ipu4/ipu6-isys-video.c:942-1063 | so in every state of every run in which every holder puts only what it got |
| StreamTable.HolderKeepsStream | kernel/ipu4/ipu6-isys-video.c:942-1005 | a holder that got a stream finds its slot live and with the identity it asked for in every state until its own put |
| StreamTable.HolderFoundByHandle | kernel/ipu4/ipu6-isys.c:1417-1428 | until its own put, a query by the handle it got finds the holder's very stream |
| StreamTable.StrayPut | kernel/ipu4/ipu6-isys-video.c:942-967 | one put too many, and the slot is given to another stream under its holder |
| StreamTable.QueryThenPut | kernel/ipu4/ipu6-isys.c:1423-1503 | a query followed by its put is the identity on the table |
| StreamTable.Isys.GetStream | kernel/ipu4/ipu6-isys-video.c:970-1005 | the two searches under the lock are the table operation |
| StreamTable.Isys.FindStream | kernel/ipu4/ipu6-isys-video.c:981-989 | the first live slot with this identity |
| StreamTable.Isys.FindUnused | kernel/ipu4/ipu6-isys-video.c:991-1001 | the first slot nobody holds |
| StreamTable.Isys.QueryByHandle | kernel/ipu4/ipu6-isys-video.c:1008-1030 | that slot, with its count one higher, iff the handle is valid and its count not 0; otherwise NULL and every count as before |
| StreamTable.Isys.QueryBySource | kernel/ipu4/ipu6-isys-video.c:1033-1063 | the first live slot whose source and channel are those asked for is held, if any |
| StreamTable.Isys.PutStream | kernel/ipu4/ipu6-isys-video.c:942-967 | exactly the holder's reference is given back; NULL and a slot nobody holds change nothing |
| StreamTable.Isys.ResponsePath | kernel/ipu4/ipu6-isys.c:1415-1505 | a response is handled for the live stream of its handle, if any, and leaves the table as it was |
| StreamTable.Isys.Csi2Isr | kernel/ipu4/ipu6-isys.c:349-372 | for every bit of the status word, in channel order, the stream of that source and channel is found; the table is left as it was |
| ResetProtocol.StepKeepsInv | kernel/ipu4/ipu6-isys-video.c:1194-1250 | every step of every thread keeps the invariant |
| ResetProtocol.ChannelExclusive | kernel/ipu4/ipu6-isys-queue.c:717-818 | at any time of any run at most one thread opens, closes or replaces the channel: the mutex holder while no reset runs, or the one thread that set `resetting` |
| ResetProtocol.ResetterUnique | kernel/ipu4/ipu6-isys-video.c:125-175 | only one thread at a time resets |
| ResetProtocol.CountExact | kernel/ipu4/ipu6-isys-video.c:1194-1250 | the reference count is gets minus puts (plus an opening get) and never negative; unless something failed, an idle channel is up iff there are references |
| ResetProtocol.EveryCallReturns | kernel/ipu4/ipu6-isys-video.c:125-190 | no deadlock: from every reachable state every call of every thread can still return |
| Buttress.TscRead | kernel/ipu4/ipu6-buttress.c:789-808 | if the counter advances by at most 2^31 over the three reads, the result is its value at the low read; its low word always is, and its high word lies between the two read |
| Buttress.TscLinearizable | kernel/ipu4/ipu6-buttress.c:789-808 | if the counter advances by at most 2^31, the result is its value at the low read, also across a rollover |
| Buttress.TscBoundSharp | kernel/ipu4/ipu6-buttress.c:797-806 | one tick more, before or after a rollover, and the result can be 2^32 off |
| Buttress.Attempt | kernel/ipu4/ipu6-buttress.c:244-298 | one pass rings once and stops with the result, goes on to the next message, or stays with one retry less |
| Buttress.SendBulk | kernel/ipu4/ipu6-buttress.c:221-306 | the loop with its wrapping index terminates and is the message-by-message reference, in result and doorbells |
| Buttress.BellsInOrder | kernel/ipu4/ipu6-buttress.c:244-268 | doorbells ring in message order, at most twice per message |
| Buttress.OkMeansCompleted | kernel/ipu4/ipu6-buttress.c:255-298 | 0 means that every message was acknowledged in turn and every required response arrived, was no NACK and matched |
| Buttress.CompletedMeansOk | kernel/ipu4/ipu6-buttress.c:255-298 | and the other way round |
| Buttress.FailureExact | kernel/ipu4/ipu6-buttress.c:255-298 | an error is that of the first message that does not complete: -ETIMEDOUT iff it was not acknowledged twice or got no required response, -EIO iff it was answered by a NACK or something unexpected |
| Buttress.AndBits | kernel/ipu4/ipu6-buttress.c:283-287 | the mask test compares bit by bit |
| SofRing.EntryStep | kernel/ipu4/ipu6-isys.c:1473-1485 | after one more event each ring entry is the latest event of its parity |
| SofRing.LookupExactIff | kernel/ipu4/ipu6-isys-queue.c:849-875 | for distinct non-zero time stamps a lookup gives the event's frame number iff it is one of the last two or frame 0; older events give 0 |
| SofRing.Stream.Prepare | kernel/ipu4/ipu6-isys-video.c:818-822 | history starts over |
| SofRing.Stream.FrameSof | kernel/ipu4/ipu6-isys.c:1473-1485 | the ring agrees with the history extended by the event |
| SofRing.Stream.SequenceByTimestamp | kernel/ipu4/ipu6-isys-queue.c:849-875 | the scan answers what the history says; without a time stamp it gives the number of the last event, and 2^32 - 1 before the first |
| SofRing.Stream.RunThenLookup | kernel/ipu4/ipu6-isys-queue.c:849-875 | for every run of events since preparation, looking up either of the last two gives its frame number |
| SofRing.Stream.RunThenLatest | kernel/ipu4/ipu6-isys-queue.c:856-861 | after any run of n events, whatever their time stamps, a lookup without a time stamp gives n - 1 |

## Left out

- Delivery.Settle: says that device and handlers can always finish, with a terminating measure for each of them, not that every schedule lets them; and it starts where the handler is not about to hit its limit of 100 rounds, after which it leaves responses to the next interrupt.
- ResetProtocol.EveryCallReturns: likewise says that every call can return, not that a fair scheduler makes it.
- Isolation.DriverFrameIff: is for DMA writes that succeed; `FrameStaysIff` covers those that stop early. Two lists over the same bus pages, as user pointers can give, share frames on purpose and are outside.
- DmaRuns.RunSound: an unwind that goes astray (`UnwindHurts`) is not among the steps; it takes pages from other owners.
- CaptureQueue.RunConserves: covers runs of plain steps; runs through the exits without a message buffer (`ipu6-isys-queue.c` lines 391-393 and 474-478) or the requeue with SET_STATE do not conserve buffers and are covered by `RunAccounts`.
- DmaLayer.Dma.Free: a size larger than the buffer's, with which the code reads beyond its page array, is not modelled.
- ScatterList.Mapper.MapSg: entries of length 0 are outside; the kernel's scatter lists have none.
- ScatterList.Mapper.UnmapSg: an entry in a slot without a table, where the code follows a NULL pointer, is not modelled.
- Responder.Device.Session: the channel is loaded and mapped (`LateLoad` covers the time before), and a batch is smaller than the ring; pushes that overlap with the device's work are in `Delivery`.
- Responder.Device.HandleSendBump: a cursor value beyond the ring, which the driver never writes, is not modelled.
- Delivery.FillKeepsInv: the driver sees the echoed read cursor, as for stream 0; for the other streams it finds fewer free slots, so its runs are among those covered.
- PageTable.MmuInfo.Map: second-level tables allocated before a failure stay allocated, as in the code; the contract speaks of translations, not of memory.
- Delivery.NoResponseLost: power loss and a closed channel are outside; the interrupt is enabled and the receive ring is never overfilled, which is the driver's stated intent.
- Cache flushes, TLB invalidation, delays, logging and DMA synchronisation have no effect in the model; timeouts are free choices.
- The allocation failures of the dummy page and of the first-level table.
- `ipu6_buttress_tsc_ticks_to_ns`, IPC reset handshake and authentication: settled by one expression or by hardware behaviour that is not in the repository.
- Probe, PCI, runtime power management, V4L2 and media-controller registration, sensor bridge and virtual sensor: framework plumbing.
- Firmware package parsing, pixel-format tables, Bayer order, field packing: finite tables.
- PHY drivers and IPU6-only code, which are not built for IPU4.
- Latch-only registers of the QEMU device, and all Python tools, scripts and unit tests.
