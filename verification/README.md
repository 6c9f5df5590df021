# Verified model of the MegaDrive emulator's bare-metal core

A Dafny 4.11 model of the stateful algorithms underneath a bare-metal Mega Drive emulator and the
Circle framework it runs on, with proofs about whole runs of them. `dafny verify dfyconfig.toml`
checks everything.

| files | what they model |
|---|---|
| Basics | bytes, options and arithmetic several modules need |
| Ram, HeapSpec, HeapRuns, HeapAllocator | the bucketed heap: on values, over runs, and over the raw bytes with headers, links and payloads in one memory |
| KasanShadow, KasanRuntime, KasanHeap, KasanHooks | the shadow encoding of addressable bytes, its routines in place, and the heap hooks over runs and in place |
| AudioRing, AudioRingBuffer | the lock-free audio ring as interleaved steps of two cores, and its calls in place |
| CxaGuard | the recursive cross-core lock of static initialisers as interleaved steps of any number of cores, and its calls in place |
| GenetTx, GenetDevice | the Ethernet transmit rings with the hardware as a step of its own, and the driver in place |
| I2cBus, I2cMaster | the I2C controller as a nondeterministic device, and the driver's polling loop in place against it |
| DeviceTree, DeviceTreeBlob | flattened devicetrees: layout and search on trees, and the cursor loops over the bytes |
| QSort, NumberParsing, Sscanf, ChdTrack | the C library stubs: sorting raw records, number parsing, the known scan formats |
| OsdTabs, OsdMenu, FavoritesFile | the ROM list: sorting, tab split, filtered lists, favourites file |
| Raster, Graphics | lines, circle outlines and discs: points, error bounds, pixels set in place |
| LogQueue, Logger | the log's text ring and event ring |
| PllDivider | the audio PLL's fixed-point divider and divider search |

Code that works in place is a class or a method here, proved against functions on values or against
the steps of a state machine; what the code is for is then proved about those, over every run.

Decisions that hold throughout:

- Concurrent code is modelled as single accesses to shared words in any interleaving, sequentially
  consistent; what a lock protects is one step. Where a hardware unit takes part, its contract is
  written out at the head of its module and everything it may do is allowed at any time.
- Machine arithmetic is written out where it can wrap: size sums of the heap, 32-bit size fields,
  16-bit ring indices, masks, the scan of a disc, fixed-point dividers. `char` and `int8_t` are
  signed (Rules.mk compiles with `-fsigned-char`).
- `& ~HEAP_ALIGN_MASK` is rounding down to the block alignment, which is the largest cache line (32 or
  64) and also the header size. The heap header file asks for a base aligned to 16; the code needs
  one aligned to the block alignment, and the model follows the code.
- Where the code does not do what it is for on all inputs, the model keeps the code and says exactly
  when it does: HugeRequest, ReAllocateKeepsRequest, RunSwept with HugeRelease, ImproperValue, WalkIsOrder with
  NopHidesSibling, GuardProtects, GuardIsExact with BothSumsWrap, DiscIff, HoldsIffFitting, CopyFits,
  RestoresIffDistinct with SecondOfTwo, OutlineIsSymmetric, and Turn
  with LateByteLosesStop.

## Model

| member | source | states |
|---|---|---|
| HeapSpec.AllocateResult | circle/lib/heapallocator.cpp:72-154 | an allocation keeps the heap invariant, moves, shrinks or drops no block, touches no byte of any live block, and returns 0 or a new aligned pointer to a block that holds the request - if and only if the request is not within one alignment unit of the top of the address space |
| HeapSpec.AllocateKeeps | circle/lib/heapallocator.cpp:72-154 | after an allocation the blocks still tile the region from its base to the bump pointer, are aligned, and each free list holds each free block of its size exactly once |
| HeapSpec.FreeKeeps | circle/lib/heapallocator.cpp:209-246 | the same after a free, whether the block goes on a list or is too large for any bucket |
| HeapSpec.Separated | circle/lib/heapallocator.cpp:72-246 | two blocks of the tiling do not overlap |
| HeapSpec.FindsItself | circle/lib/heapallocator.cpp:209-218 | the header in front of a pointer is that of the one block it belongs to |
| HeapRuns.ReAllocateResult | circle/lib/heapallocator.cpp:165-198 | a reallocation keeps the old bytes up to the recorded size, frees the old block only when it moved, leaves every other live block as it was, and on failure leaves the old block in place; answered in place the block is big enough already |
| HeapRuns.AllocateAnswers | circle/lib/heapallocator.cpp:72-154 | a request is met if and only if the region is set up and a freed block of its bucket waits, or header and payload fit below the reserve; one that wraps, if and only if a bare header fits; a refusal gives up the reserve and changes nothing else |
| HeapRuns.AllocateTakes | circle/lib/heapallocator.cpp:72-154 | a met request takes a waiting block and leaves the untouched region alone, or takes the start of that region and no more of it than it needs |
| HeapRuns.ReAllocateAnswers | circle/lib/heapallocator.cpp:165-198 | without an old block it is an allocation; size 0 answers 0 and the block is owned no more; what the recorded size covers is answered in place; anything else is refused if and only if an allocation of that size is |
| HeapRuns.RunReAllocates | circle/lib/heapallocator.cpp:165-198 | after every run of requests that do not wrap, a successful reallocation leaves a block that holds the new request, whether it moved or stayed in place |
| HeapRuns.ReAllocateKeepsRequest | circle/lib/heapallocator.cpp:182-197 | what is copied covers the whole old request exactly when that request fits the 32-bit size field |
| HeapRuns.AllocateThenFree | circle/lib/heapallocator.cpp:72-246 | taking a block off a free list and freeing it restores the heap exactly |
| HeapRuns.FreeThenAllocate | circle/lib/heapallocator.cpp:72-246 | the block freed last is the one the next request of its bucket gets, contents included |
| HeapRuns.RunKeeps | circle/lib/heapallocator.cpp:72-246 | over every run of the operations the invariant holds and blocks never move, shrink or vanish |
| HeapRuns.RunGoesOn | circle/lib/heapallocator.cpp:72-246 | a run is its operations one after another: it can go on exactly when the next one is possible where it has led, and then goes there |
| HeapRuns.RunLeavesAlone | circle/lib/heapallocator.cpp:72-246 | over every run a live block no operation names keeps every byte |
| HeapRuns.RunSeparates | circle/lib/heapallocator.cpp:72-246 | after every run two live payloads are disjoint with a header between them, aligned, inside the region and below the reserve |
| HeapRuns.RunFair | circle/lib/heapallocator.cpp:72-246 | after every run of requests that do not wrap, every live block holds at least what was asked for and its header the rounded request cut to 32 bits |
| HeapRuns.HugeRequest | circle/lib/heapallocator.cpp:108-142 | the other half: a request that wraps is answered with a block without payload |
| HeapRuns.HugeIsEmpty | circle/lib/heapallocator.cpp:108-142 | so is every request that wraps and is not refused |
| HeapRuns.CopyFits | circle/lib/heapallocator.cpp:187-195 | for every block that is moved, the copy fits the new block exactly when the request does not wrap or nothing is copied, and it stays in the old block exactly when the recorded size is not more than it holds |
| HeapRuns.RunConserves | circle/lib/heapallocator.cpp:72-246 | after every run live, listed and lost blocks add up to all bytes between the base and the bump pointer |
| HeapAllocator.CHeapAllocator.constructor | circle/lib/heapallocator.cpp:27-45 | an allocator that refuses every request, with at most 20 buckets |
| HeapAllocator.CHeapAllocator.Setup | circle/lib/heapallocator.cpp:51-56 | the region and the reserve, which may exceed the region, are set, with no block yet |
| HeapAllocator.CHeapAllocator.GetFreeSpace | circle/lib/heapallocator.cpp:58-61 | the bytes behind the bump pointer, reserve included |
| HeapAllocator.CHeapAllocator.FindBucket | circle/lib/heapallocator.cpp:81-97 | the first bucket that is large enough, and the request rounded up to it |
| HeapAllocator.CHeapAllocator.FindExactBucket | circle/lib/heapallocator.cpp:221-238 | the bucket of exactly that size, if there is one |
| HeapAllocator.CHeapAllocator.DoAllocate | circle/lib/heapallocator.cpp:72-154 | on memory bytes: the new heap and the pointer are those of the allocation on values; no header store hits another block or a link |
| HeapAllocator.CHeapAllocator.DoFree | circle/lib/heapallocator.cpp:209-246 | on memory bytes: the new heap is that of the free on values |
| HeapAllocator.CHeapAllocator.DoReAllocate | circle/lib/heapallocator.cpp:165-198 | on memory bytes: the new heap and the pointer are those of the reallocation on values |
| HeapAllocator.RecycleStored | circle/lib/heapallocator.cpp:100-105 | unlinking the head of a free list leaves exactly the remaining list in the link words |
| HeapAllocator.PushStored | circle/lib/heapallocator.cpp:221-238 | linking a freed block in front leaves exactly the longer list in the link words |
| HeapAllocator.BumpStored | circle/lib/heapallocator.cpp:106-143 | a fresh header changes no byte of any other block |
| HeapAllocator.HeaderLayout | circle/include/circle/heapallocator.h:43-56 | every block in memory byte by byte: the magic number 41 or 46 4D 4C 42, the size little end first, the payload behind one alignment unit |
| HeapAllocator.ListLayout | circle/lib/heapallocator.cpp:99-104 | the head of a free list holds the address of its first block, and the word at offset 8 of each that of the next, 0 at the end |
| Ram.LoadStored | circle/lib/heapallocator.cpp:140-148 | a header word stored little-endian is read back |
| KasanShadow.CheckerExact | circle/lib/kasan.cpp:85-123 | for shadow bytes 0..7 or negative, the check reports a range exactly when some byte of it is not addressable, and the reported granule holds such a byte, although only the first non-zero byte and the last are looked at |
| KasanShadow.ImproperValue | circle/lib/kasan.cpp:101-120 | with a shadow byte of 8..127 this fails: a range of addressable bytes is reported |
| KasanShadow.PoisonMeans | circle/lib/kasan.cpp:126-136 | poisoning decides exactly the bytes of its range |
| KasanShadow.UnpoisonMeans | circle/lib/kasan.cpp:139-149 | unpoisoning makes exactly the bytes of its range addressable and the rest of the last granule not |
| KasanShadow.TransitionMeans | circle/lib/kasan.cpp:174-210 | one boundary move keeps the addressable bytes exactly [beg, mid), for every alignment of both boundaries, and touches no shadow outside the container |
| KasanShadow.TransitionsMean | circle/lib/kasan.cpp:174-210 | so does every sequence of boundary moves |
| KasanShadow.TransitionByte | circle/lib/kasan.cpp:174-210 | the shadow byte of every granule after a boundary move, 0xfc where the region was left |
| KasanRuntime.ShadowMemory.GetPoisonedShadowAddress | circle/lib/kasan.cpp:85-123 | 0 exactly when every byte of the range is addressable, otherwise the address of the shadow byte to blame |
| KasanRuntime.ShadowMemory.PoisonShadow | circle/lib/kasan.cpp:126-136 | the shadow memory after the fill |
| KasanRuntime.ShadowMemory.UnpoisonShadow | circle/lib/kasan.cpp:139-149 | the shadow memory after unpoisoning, partial last granule included |
| KasanRuntime.ShadowMemory.AnnotateRangeTransition | circle/lib/kasan.cpp:174-210 | the shadow memory after the boundary move whose meaning TransitionMeans proves |
| KasanHeap.MarkAllocatedMeans | circle/lib/kasan.cpp:313-326 | of an allocation's footprint exactly the requested bytes become addressable, and nothing outside it changes |
| KasanHeap.InitialOk | circle/lib/kasan.cpp:303-352 | a heap just set up, with any proper shadow, has the property all runs keep |
| KasanHeap.HoldsIffFitting | circle/lib/kasan.cpp:304-337 | for every request, the total in machine words included, the block the hook obtains holds the head redzone and the requested bytes exactly when the padded request does not wrap |
| KasanHeap.KAllocateKeeps | circle/lib/kasan.cpp:328-337 | an allocation through the hook keeps every live block's shadow exact and every freed one's poisoned |
| KasanHeap.KFreeKeeps | circle/lib/kasan.cpp:339-352 | so does a free through the hook |
| KasanHeap.KRunKeeps | circle/lib/kasan.cpp:328-352 | so does every run of both hooks and of writes by the owners |
| KasanHeap.KRunGoesOn | circle/lib/kasan.cpp:328-352 | a run is its operations one after another: it can go on exactly when the next one is possible where it has led, and then goes there |
| KasanHeap.RunExact | circle/lib/kasan.cpp:303-352 | after every run a live allocation's requested bytes are addressable, and nothing else of the footprint the hook asked for |
| KasanHeap.RunChecked | circle/lib/kasan.cpp:85-123 | after every run an access inside the footprint is let through exactly when it stays in the requested bytes |
| KasanHeap.RunFenced | circle/lib/kasan.cpp:303-352 | after every run the alignment unit in front of a live allocation, the rest of its last 8 bytes and 32 bytes more lie in its block and are closed, and an access of 1 to 32 bytes right behind it or right in front of it is reported |
| KasanHeap.AllocatedGuarded | circle/lib/kasan.cpp:328-337 | that holds of every allocation as soon as it is made |
| KasanHeap.RedzoneTags | circle/lib/kasan.cpp:313-325 | the redzones of a fresh allocation are tagged 0xfa in front and 0xfb behind |
| KasanHeap.FreedTags | circle/lib/kasan.cpp:339-352 | a payload just freed is tagged 0xfd |
| KasanHeap.RunSwept | circle/lib/kasan.cpp:339-352 | after every run no payload byte of a freed, not reused block is addressable exactly when its rounded size fits the 32-bit header word |
| KasanHeap.HugeRelease | circle/lib/kasan.cpp:319-352 | on every heap that answers it, a request whose rounded size is 2^32 or more leaves one of its bytes addressable when it is freed |
| KasanHeap.HugeReleaseHappens | circle/lib/kasan.cpp:319-352 | a 64-bit heap that answers such a request |
| KasanHooks.ShadowAllocated | circle/lib/kasan.cpp:313-326 | the three shadow updates in place |
| KasanHooks.KasanAllocateHook | circle/lib/kasan.cpp:328-337 | heap bytes and shadow bytes after the hook are those of the allocation on values |
| KasanHooks.KasanFreeHook | circle/lib/kasan.cpp:339-352 | heap bytes and shadow bytes after the hook are those of the free on values |
| AudioRing.CountsAddUp | emulator/audio_ring_buffer.h:24-30 | for any snapshot of the two indices available plus free is SIZE - 1 |
| AudioRing.StoreOutside | emulator/audio_ring_buffer.h:32-52 | in every reachable state a store of the producer goes to a slot outside the window from read_idx to the published write_idx |
| AudioRing.LoadInside | emulator/audio_ring_buffer.h:54-76 | a load of the consumer stays inside that window and finds the word of the stream that belongs there |
| AudioRing.StepKeeps | emulator/audio_ring_buffer.h:24-76 | every step of either core keeps the invariant |
| AudioRing.RunIsFifo | emulator/audio_ring_buffer.h:24-76 | in every interleaving the words read are a prefix, in order and untorn, of the words accepted |
| AudioRing.RunGoesOn | emulator/audio_ring_buffer.h:24-76 | a run is its steps one after another: it can go on exactly when the next one is possible where it has led, and then goes there |
| AudioRing.StreamIsFifo | emulator/audio_ring_buffer.h:18-76 | from the empty ring on: after every sequence of steps that can occur the words read are a prefix of the words accepted, and the available count is the number of published words not yet taken |
| AudioRing.AcceptsWhatFits | emulator/audio_ring_buffer.h:32-39 | a write takes as many samples as fit by what the consumer had published when it looked |
| AudioRing.PublishesPrefix | emulator/audio_ring_buffer.h:50-51 | publishing appends exactly that prefix of the call's samples |
| AudioRing.TakesWhatIsThere | emulator/audio_ring_buffer.h:59-66 | a read takes as many samples as were published when it looked, up to what it asked for |
| AudioRing.DeliversNext | emulator/audio_ring_buffer.h:68-76 | once every word came over, a read delivers exactly the next ones of the stream, and the producer has that much more room |
| AudioRing.CallsCarry | emulator/audio_ring_buffer.h:32-60 | a call carries its own samples and count |
| AudioRing.WriteAccepts | emulator/audio_ring_buffer.h:32-52 | an uninterrupted call is a run of steps that ends with exactly the samples accepted there was room for, 8191 less what is queued |
| AudioRing.ReadTakes | emulator/audio_ring_buffer.h:54-76 | an uninterrupted call is a run of steps that ends with exactly the samples delivered that were asked for and published |
| AudioRingBuffer.AudioRingBuffer.GetAvailable | emulator/audio_ring_buffer.h:24-26 | the number of queued stereo samples |
| AudioRingBuffer.AudioRingBuffer.GetFreeSpace | emulator/audio_ring_buffer.h:28-30 | SIZE - 1 less the queued samples |
| AudioRingBuffer.AudioRingBuffer.Write | emulator/audio_ring_buffer.h:32-52 | the queue afterwards is the old one followed by the prefix of the samples that fits |
| AudioRingBuffer.AudioRingBuffer.Read | emulator/audio_ring_buffer.h:54-76 | the output starts with the oldest samples, the queue is left with the others, and the rest of the output is untouched |
| CxaGuard.StepKeeps | circle/lib/cxa_guard.cpp:89-146 | every step of any core keeps the lock and guard object invariant |
| CxaGuard.OneOwner | circle/lib/cxa_guard.cpp:85-111 | a core is inside exactly when the lock word names it, the count is its nesting depth, and no two cores are inside |
| CxaGuard.ZeroMeansFinished | circle/lib/cxa_guard.cpp:115-129 | a call returns 0, even by the unlocked look, only when the constructor has finished |
| CxaGuard.HaltsIffRecursive | circle/lib/cxa_guard.cpp:133-134 | the IN_USE assertion fails exactly when the object's constructor is running on the same core |
| CxaGuard.ReleaseIsOwned | circle/lib/cxa_guard.cpp:104-111 | the count assertion in GuardRelease always holds |
| CxaGuard.OwnerNeverWaits | circle/lib/cxa_guard.cpp:89-102 | a waiting core is kept waiting only by another core that owns the lock, and that one can always go on unless it has halted |
| CxaGuard.FinishedNeedsNoLock | circle/lib/cxa_guard.cpp:115-123 | once the constructor has finished a call of any core returns 0 after a single look, whoever holds the lock; before that it goes for the lock |
| CxaGuard.RunIsSafe | circle/lib/cxa_guard.cpp:85-146 | for any number of cores, nesting and interleaving each constructor starts at most once, a 0 was only returned for a finished one, and at most one core is inside, as deep as the count says |
| CxaGuard.RunGoesOn | circle/lib/cxa_guard.cpp:85-146 | a run is its steps one after another: it can go on exactly when the next one is possible where it has led, and then goes there |
| CxaGuard.TakenMeans | circle/lib/cxa_guard.cpp:115-137 | what a call amounts to from taking the lock on: 0 and no change, a failed assertion, or one more constructor on the stack |
| CxaGuard.FinishAloneMeans | circle/lib/cxa_guard.cpp:139-146 | the end of a constructor marks its object and frees the lock exactly after the outermost one |
| CxaGuard.Guards.GuardAcquire | circle/lib/cxa_guard.cpp:89-102 | in place, over any memory the other cores leave between the attempts |
| CxaGuard.Guards.GuardRelease | circle/lib/cxa_guard.cpp:104-111 | the count goes down, and the lock is free when it is 0 |
| CxaGuard.Guards.Acquire | circle/lib/cxa_guard.cpp:115-137 | memory and result are those of the core's steps in the state machine |
| CxaGuard.Guards.Release | circle/lib/cxa_guard.cpp:139-146 | memory is that of the core's steps in the state machine |
| GenetTx.RingsPartition | circle/lib/bcm54213.cpp:1266-1366 | the five rings' descriptor ranges partition 0..255, each as long as the ring's size |
| GenetTx.StepKeeps | circle/lib/bcm54213.cpp:712-774 | every step of sender, hardware and reclaim loop keeps the invariant of all rings |
| GenetTx.IndicesTell | circle/lib/bcm54213.cpp:763-769 | (prod_index - c_index) mod 2^16 is size - free_bds, and write_ptr and clean_ptr are the ring's start plus prod_index and c_index modulo its size |
| GenetTx.BufferIffInFlight | circle/lib/bcm54213.cpp:1368-1419 | a control block has a buffer exactly when its frame is sent and not reclaimed, and then it is that frame's, with the frame in it |
| GenetTx.InFlightStays | circle/lib/bcm54213.cpp:712-774 | no step changes a buffer, descriptor or control block while its frame is in flight |
| GenetTx.NoLeak | circle/lib/bcm54213.cpp:1382-1419 | the allocated buffers are exactly those of frames in flight |
| GenetTx.RunIsOrderly | circle/lib/bcm54213.cpp:712-774 | over every run each ring sends the accepted frames, padded, in order and once each, and gives their buffers back in that order, once each and only after sending |
| GenetTx.RunGoesOn | circle/lib/bcm54213.cpp:712-774 | a run is its steps one after another: it can go on exactly when the next one is possible where it has led, and then goes there |
| GenetTx.SendMeans | circle/lib/bcm54213.cpp:712-774 | a send with room appends the padded frame and its one new buffer to its ring |
| GenetTx.ReclaimMeans | circle/lib/bcm54213.cpp:1382-1409 | a reclaim gives back the buffers of exactly the frames sent when it looked, through any wrap-around of the indices, and touches no other ring |
| GenetTx.QueueDescriptors | circle/lib/bcm54213.cpp:712-774 | an accepted frame takes one descriptor and control block of its queue - 128 to 255 for queue 0, 32*(q-1) to 32*q-1 for queues 1 to 4 - with its length, at least 60, and a buffer of 1536 bytes, and changes no other |
| GenetTx.QueuesAndRings | circle/lib/bcm54213.cpp:717-728 | different queues have different rings, and every ring has its queue |
| GenetTx.SendIsSteps | circle/lib/bcm54213.cpp:730-774 | sending is the fill and publish steps of the state machine, or the one that drops the frame when fewer than 2 descriptors are free |
| GenetTx.ReclaimIsRun | circle/lib/bcm54213.cpp:1382-1409 | reclaiming is a run of the state machine: its look, a turn for each frame that is ready, its end |
| GenetDevice.CBcm54213Device.InitTxRing | circle/lib/bcm54213.cpp:1326-1366 | the ring record and its registers |
| GenetDevice.CBcm54213Device.InitTxQueues | circle/lib/bcm54213.cpp:1266-1323 | all five rings |
| GenetDevice.CBcm54213Device.GetTxCb | circle/lib/bcm54213.cpp:1368-1380 | the next control block, and the write pointer moved on around the ring |
| GenetDevice.CBcm54213Device.PadFrame | circle/lib/bcm54213.cpp:742-748 | the new buffer holds the frame, zeros up to 60 bytes, and behind them what was there |
| GenetDevice.CBcm54213Device.SendFrame | circle/lib/bcm54213.cpp:712-774 | sent exactly when there was room, and then in a descriptor of the queue's own; the state is that of the fill and publish steps |
| GenetDevice.CBcm54213Device.TxReclaim | circle/lib/bcm54213.cpp:1382-1409 | the state is that of the reclaim steps, and the result the number of frames sent since the last one |
| GenetDevice.CBcm54213Device.FreeTxCb | circle/lib/bcm54213.cpp:1411-1419 | the control block is empty and its buffer, if any, is freed |
| GenetDevice.BufferThere | circle/lib/bcm54213.cpp:1394-1403 | the reclaim loop never meets a control block without a buffer |
| I2cBus.OneStopAndLast | circle/lib/i2cmaster-rp1.cpp:561-594 | exactly one command of a transfer carries the stop bit, and it is the last |
| I2cBus.OutstandingIs | circle/lib/i2cmaster-rp1.cpp:549-610 | what is outstanding waits in a FIFO, is on the bus, or was received and is late on its way to the receive FIFO |
| I2cBus.HappensKeeps | circle/lib/i2cmaster-rp1.cpp:342-420 | whatever the bus does between two register accesses keeps the invariant: outstanding is RX length less TX length and at most 32, and no FIFO runs over; a stop to be seen stays to be seen |
| I2cBus.PutKeeps | circle/lib/i2cmaster-rp1.cpp:567-594 | writing the next command keeps it |
| I2cBus.GetKeeps | circle/lib/i2cmaster-rp1.cpp:524-547 | fetching a byte keeps it, and puts the oldest byte where it belongs |
| I2cBus.StopMeansWhole | circle/lib/i2cmaster-rp1.cpp:393-398 | a stop seen without abort means every command was executed |
| I2cBus.WholeMeans | circle/lib/i2cmaster-rp1.cpp:393-398 | then every command was written, and whatever is outstanding is in the receive FIFO or late |
| I2cBus.LateByteLosesStop | circle/lib/i2cmaster-rp1.cpp:512-515 | a read of two bytes whose stop is seen together with RX_FULL while the last byte is late |
| I2cBus.PromptDelivers | circle/lib/i2cmaster-rp1.cpp:524-547 | on a bus that delivers each byte before anything else happens no byte is ever late |
| I2cBus.FinishedMeans | circle/lib/i2cmaster-rp1.cpp:401-419 | a finished transfer has written all commands, and a read has every byte in arrival order |
| I2cBus.FaultsShow | circle/lib/i2cmaster-rp1.cpp:549-570 | what running a FIFO of 32 entries over or under shows as |
| I2cBus.CountsDown | circle/lib/i2cmaster-rp1.cpp:358-399 | every turn of the loop leaves less to do on a bus that goes on: pace * (2 * words - executed - written) and the wait for the next execution |
| I2cBus.SomeBusGoesOn | circle/lib/i2cmaster-rp1.cpp:358-399 | there is such a bus |
| I2cMaster.CI2CMaster.ReadClearIntrBits | circle/lib/i2cmaster-rp1.cpp:473-522 | the bits are those of one moment; a stop is cleared when nothing is outstanding or RX_FULL is seen with it, and stays when data is outstanding and RX_FULL is not |
| I2cMaster.CI2CMaster.ReadFifo | circle/lib/i2cmaster-rp1.cpp:524-547 | fetches exactly what the receive FIFO holds when its level is read |
| I2cMaster.CI2CMaster.XferMsg | circle/lib/i2cmaster-rp1.cpp:549-610 | keeps the invariant, and TX_EMPTY enabled exactly while commands are left to write; writes all words there are, or fills the transmit FIFO, or stops because 32 bytes are outstanding |
| I2cMaster.CI2CMaster.Turn | circle/lib/i2cmaster-rp1.cpp:359-399 | after a stop the loop is left exactly when no byte is late at the reading of the FIFO level; a stop is lost exactly when it was seen together with RX_FULL and a byte was late at that reading; a turn that starts with the transfer whole and delivered leaves with result 0; seeing TX_EMPTY it writes the words that are left, or at least 16, or as many as the receive side has room for |
| I2cMaster.CI2CMaster.Poll | circle/lib/i2cmaster-rp1.cpp:358-399 | the loop ends with a whole transfer, an abort or a timeout, and on a bus that delivers in time no timeout comes from a lost stop: a transfer that is whole when the last turn starts is never timed out |
| I2cMaster.CI2CMaster.WaitBusNotBusy | circle/lib/i2cmaster-rp1.cpp:422-438 | busy exactly when the time is up before the bus is free |
| I2cMaster.CI2CMaster.Transfer | circle/lib/i2cmaster-rp1.cpp:342-420 | for every behaviour of the bus, late bytes included: a result that is no error is the byte count, all commands were written, a read buffer holds the bytes in arrival order, and neither FIFO ever ran over; on a bus that delivers in time a transfer that is whole before the last turn starts, and not aborted, returns its byte count; on such a bus that executes a command at least once in every pace register accesses, more than pace * (2 * words + 1) turns never end in a timeout, and without a give-up return the byte count |
| DeviceTree.WalkIsOrder | circle/lib/devicetreeblob.cpp:230-260 | the walk gets through a subtree exactly when no NOP stands between two siblings in it, and always sees a front part of the document order |
| DeviceTree.LayoutByteByByte | circle/lib/devicetreeblob.cpp:230-311 | a tree with a property, a child and NOPs, byte by byte |
| DeviceTree.SearchIsDocumentOrder | circle/lib/devicetreeblob.cpp:175-246 | without such NOPs the search takes the first node in document order named by the path's first component and searches the rest from it |
| DeviceTree.FindsNodeAtPath | circle/lib/devicetreeblob.cpp:175-246 | so it finds the node at a path whose names are not repeated elsewhere |
| DeviceTree.NopHidesSibling | circle/lib/devicetreeblob.cpp:230-260 | a NOP between two siblings hides the second one |
| DeviceTree.RepeatedNameFindsItself | circle/lib/devicetreeblob.cpp:198-207 | the rest of a path is searched from the matched node, itself included |
| DeviceTreeBlob.CDeviceTreeBlob.FindNodeInternal | circle/lib/devicetreeblob.cpp:128-261 | on the bytes of any tree, without leaving them: the node found is that of the search on the tree, and the next node is the offset behind the subtree exactly when nothing matched in it |
| DeviceTreeBlob.CDeviceTreeBlob.FindNode | circle/lib/devicetreeblob.cpp:122-156 | the same from the root for an absolute path, or inside a given node; nothing for any other path |
| DeviceTreeBlob.CDeviceTreeBlob.FindProperty | circle/lib/devicetreeblob.cpp:264-311 | on the bytes: the first of the node's own properties of that name |
| DeviceTreeBlob.FoundIffThere | circle/lib/devicetreeblob.cpp:264-311 | a property is found if and only if the node itself has one whose name, the bytes up to the NUL at its offset in the strings block, is the name, and then it is the first |
| DeviceTreeBlob.CString | circle/lib/devicetreeblob.cpp:294-303 | the bytes from an offset up to the NUL, none of them NUL |
| DeviceTreeBlob.NamedIs | circle/lib/devicetreeblob.cpp:294-303 | comparing that string is comparing those bytes |
| DeviceTreeBlob.CDeviceTreeBlob.GetPropertyValueWord | circle/lib/devicetreeblob.cpp:342-361 | the big-endian word at the index, 0 when the value is too short; with 32-bit addresses the index counts modulo 2^30, and its last value leads to the word in front of the value |
| DeviceTreeBlob.GuardProtects | circle/lib/devicetreeblob.cpp:352-358 | the length test is right for values of every length exactly when the index is not 2^32 - 1 where size_t has 64 bits, and exactly when it is below 0x3fffffff where it has 32 |
| DeviceTreeBlob.CDeviceTreeBlob.constructor | circle/lib/devicetreeblob.cpp:89-114 | a buffer is taken exactly when there is one and magic, version and size are right |
| QSort.SwapBytes | emulator/clib_stubs.cpp:541-548 | two equal or disjoint ranges exchanged, nothing else changed |
| QSort.ExchangeSwaps | emulator/clib_stubs.cpp:541-548 | exchanging bytes exchanges whole records, a record with itself included |
| QSort.Partition | emulator/clib_stubs.cpp:552-561 | the pivot stands behind all records not above it and before all above it, and the records are permuted |
| QSort.QSort | emulator/clib_stubs.cpp:550-568 | for any record size and total preorder the records are sorted, the multiset of whole records is kept and no other byte changes |
| QSort.SortedAround | emulator/clib_stubs.cpp:561-567 | sorted parts around their pivot are sorted together |
| NumberParsing.CutoffIsExact | emulator/clib_stubs.cpp:447-470 | the cutoff test says exactly whether one more digit overflows |
| NumberParsing.Strtol | emulator/clib_stubs.cpp:420-480 | the value of the maximal digit run clamped to a long, and the position just behind it, for bases 2 to 36, 16 with prefix and automatic |
| NumberParsing.StrtolReads | emulator/clib_stubs.cpp:420-480 | for all white space, signs, prefixes, digits, bases and whatever follows: the digits' value in the base that argument and prefix settle, with the sign, cut to -2147483648..2147483647, and the position behind the digits; nothing for a prefix without digits |
| NumberParsing.ValueInvertsPrint | emulator/clib_stubs.cpp:447-470 | the value of a printed number is the number, in every base from 2 to 36 |
| NumberParsing.DigitIs | emulator/clib_stubs.cpp:452-458 | digits are 0 to 9, and from 10 on the letters of either case |
| Sscanf.StrtolInvertsPrint | emulator/clib_stubs.cpp:420-480 | strtol reads back every printed long, whatever follows that is no digit |
| Sscanf.ScanMsf | emulator/clib_stubs.cpp:301-330 | the fields and their count for every string |
| Sscanf.MsfRoundTrip | emulator/clib_stubs.cpp:301-330 | "%d:%d:%d" inverts its printer on non-negative fields |
| Sscanf.MsfReads | emulator/clib_stubs.cpp:301-330 | up to three fields behind blanks, each printed or missing, with anything behind that is no digit: every field that is there is assigned and counted, also behind a missing one |
| Sscanf.MsfReadsTwo | emulator/clib_stubs.cpp:301-330 | the same for two fields |
| Sscanf.MsfReadsOne | emulator/clib_stubs.cpp:301-330 | and for one |
| ChdTrack.FirstTag | emulator/clib_stubs.cpp:253-279 | the first occurrence of a key is at the first tag that ends with it |
| ChdTrack.FieldsAre | emulator/clib_stubs.cpp:241-300 | the fields of a key are what stands behind its first occurrence, a string field up to a space or the end |
| ChdTrack.CountsKeys | emulator/clib_stubs.cpp:241-300 | what is returned counts the keys that occur, in whatever order |
| ChdTrack.ScanShortTrack | emulator/clib_stubs.cpp:279-300 | the four fields and their count for every string |
| ChdTrack.ScanLongTrack | emulator/clib_stubs.cpp:241-278 | the eight fields and their count for every string |
| ChdTrack.ShortRoundTrip | emulator/clib_stubs.cpp:279-300 | the four-field TRACK format inverts its printer for string fields without space and colon |
| ChdTrack.LongRoundTrip | emulator/clib_stubs.cpp:241-278 | so does the eight-field one |
| OsdTabs.CompareTotal | emulator/osd.cpp:7-18 | the case-insensitive comparison is total, although it mixes signed and unsigned characters |
| OsdTabs.CompareTransitive | emulator/osd.cpp:7-18 | and transitive |
| OsdTabs.CompareAt | emulator/osd.cpp:7-18 | the first place where two names are not alike decides, by the lower-case characters; when there is none the shorter name comes first |
| OsdTabs.LetterIs | emulator/osd.cpp:142-157 | letter l is the l-th of the alphabet in either case |
| OsdTabs.MegaCdIs | emulator/osd.cpp:107-118 | a ROM is one for the Mega CD exactly when its extension is cue, chd or iso in any case |
| OsdMenu.COSDMenu.SortRoms | emulator/osd.cpp:89-104 | the names are sorted, and names and sizes are permuted together |
| OsdMenu.COSDMenu.Categorise | emulator/osd.cpp:106-126 | the two index lists are the ROMs of either kind, in order |
| OsdMenu.COSDMenu.CalculateTabSplit | emulator/osd.cpp:157-197 | the first, in order of k1 and then k2, of the splits with the least deviation from a third each; the default without games |
| OsdTabs.PartSizes | emulator/osd.cpp:172-188 | the lists of tabs 2, 3 and 4 are exactly as long as the three sizes that were weighed |
| OsdTabs.DiffIs | emulator/osd.cpp:172-188 | what is weighed is how far the lengths of those lists are from a third of all, and the lists are all |
| OsdTabs.TabListIs | emulator/osd.cpp:281-327 | filtering the index lists gives exactly the ROMs that belong to a tab |
| OsdTabs.TabsPartition | emulator/osd.cpp:281-327 | tabs 2 to 5 list every ROM exactly once, each in the order of ALL |
| OsdMenu.COSDMenu.BuildFilteredList | emulator/osd.cpp:267-328 | the list shown holds, in the order of ALL, everything, the favourites, or exactly the ROMs of the active tab |
| OsdMenu.FavoritesListed | emulator/osd.cpp:274-281 | the FAV tab lists the marked ROMs, each once, in the order of ALL |
| FavoritesFile.LineRead | emulator/osd.cpp:434-439 | a saved line is read back as one name, also the 127-byte name whose line feed comes with a call of its own |
| FavoritesFile.SaveThenLoad | emulator/osd.cpp:421-468 | loading what was saved restores the favourites, for distinct non-empty names of up to 127 bytes without line feed or final carriage return |
| FavoritesFile.RestoresIffDistinct | emulator/osd.cpp:421-468 | for such names: every set of marks is restored if and only if the names are distinct, which the cut to 127 characters can break |
| FavoritesFile.SecondOfTwo | emulator/osd.cpp:421-468 | two equal names, the second one marked: loading marks the first |
| FavoritesFile.CrLfLineRead | emulator/osd.cpp:434-439 | a line that ends in carriage return and line feed is the same name |
| FavoritesFile.LongerLineSplits | emulator/osd.cpp:434-439 | a line of more than 127 bytes is seen in pieces |
| FavoritesFile.RunDenotes | emulator/osd.cpp:470-488 | after any run of marking and unmarking whose writes succeed the file denotes the favourites in memory |
| FavoritesFile.StepsFromFront | emulator/osd.cpp:470-488 | the same of a run of marking and unmarking, told from the front |
| OsdMenu.COSDMenu.FGets | circle/addon/fatfs/ff.c:6699-6713 | bytes up to a line feed, the end of the file or a full buffer |
| OsdMenu.COSDMenu.LoadFavorites | emulator/osd.cpp:421-449 | the marks are those of the lines of the file |
| OsdMenu.COSDMenu.SaveFavorites | emulator/osd.cpp:451-468 | the file holds one line for each marked ROM, in order |
| OsdMenu.COSDMenu.MarkCurrent | emulator/osd.cpp:470-488 | marks and file after marking or unmarking the current entry |
| Raster.OffsetIsNearest | circle/lib/2dgraphics.cpp:308-340 | every minor offset is the integer nearest to the ideal line, within half a pixel |
| Raster.LineInBox | circle/lib/2dgraphics.cpp:293-341 | every point is in the bounding box of the ends, the first is one end and the last the other |
| Raster.LineIsNear | circle/lib/2dgraphics.cpp:293-341 | every point is within half a pixel of the ideal line, measured along the minor axis |
| Raster.LineIsConnected | circle/lib/2dgraphics.cpp:308-340 | each point is one step along the major axis from the one before, and at most one along the other |
| Graphics.C2DGraphics.DrawLine | circle/lib/2dgraphics.cpp:293-341 | exactly the points of the line are set, all on the screen, or nothing when an end is not |
| Raster.OutlineIsNear | circle/lib/2dgraphics.cpp:386-419 | p is (y+1)^2 + x^2 - x - r^2, and every plotted octant point satisfies |x^2 + y^2 - r^2| <= x |
| Raster.OutlineIsNearest | circle/lib/2dgraphics.cpp:386-419 | the column of every octant point is the integer nearest to the circle's in its row: x*(x-1) <= r^2 - y^2 < x*(x+1) |
| Raster.OutlinePointsAreNear | circle/lib/2dgraphics.cpp:377-420 | every point set satisfies |tx^2 + ty^2 - r^2| <= max(|tx|, |ty|) |
| Raster.OutlineHasEveryRow | circle/lib/2dgraphics.cpp:377-420 | every row from -r to r but the middle one has a point on either side |
| Raster.OutlineIsSymmetric | circle/lib/2dgraphics.cpp:377-420 | of a point set all eight mirror images are set, but for the left end of the horizontal axis, which never is |
| Raster.GuardIsExact | circle/lib/2dgraphics.cpp:343-373 | what fits the screen passes the head test; what passes fits exactly when the centre coordinate is below 2^31 |
| Raster.BothSumsWrap | circle/lib/2dgraphics.cpp:368-373 | a centre beyond 2^31 that passes although it does not fit |
| Graphics.C2DGraphics.DrawCircleOutline | circle/lib/2dgraphics.cpp:368-421 | exactly the axis points and the mirror images of the octant points are set, all on the screen |
| Graphics.C2DGraphics.DrawCircle | circle/lib/2dgraphics.cpp:343-366 | exactly the points the 32-bit scan reaches and lets pass are set |
| Raster.DiscIff | circle/lib/2dgraphics.cpp:352-365 | these are exactly the points with tx^2 + ty^2 < r^2 if and only if the radius is below 0x8000 |
| Raster.LargeDisc | circle/lib/2dgraphics.cpp:352-365 | from 0x8000 on the area wraps and a point of the disc stays unset |
| Logger.CLogger.Write | circle/lib/logger.cpp:274-313 | the text held is the last, or the first, 0x3fff characters of the old text followed by the new one without carriage returns |
| Logger.CLogger.Read | circle/lib/logger.cpp:315-352 | returns the oldest part in order and drops it exactly when clearing |
| LogQueue.HoldsMostRecent | circle/lib/logger.cpp:274-352 | over every run in overwrite mode the text held is the most recent characters not cleared |
| LogQueue.KeepsOrder | circle/lib/logger.cpp:274-352 | over every run in the other mode what was read and what is held is what was accepted, in order |
| LogQueue.AcceptsWhatFits | circle/lib/logger.cpp:274-313 | and a write drops only what does not fit |
| LogQueue.RunWrites | circle/lib/logger.cpp:274-313 | all text of a run is the text of its writes, stripped |
| LogQueue.StrippedParts | circle/lib/logger.cpp:285-291 | nothing but the carriage returns is stripped |
| LogQueue.ReadTakes | circle/lib/logger.cpp:315-352 | only a clearing read takes anything, and what it takes it returns: the oldest characters, as many as it asks for |
| Logger.CLogger.WriteEvent | circle/lib/logger.cpp:385-409 | the queue with the new event, the oldest one dropped when it was full |
| Logger.CLogger.ReadEvent | circle/lib/logger.cpp:419-450 | the oldest event, which is deleted |
| LogQueue.DeletedOnce | circle/lib/logger.cpp:354-450 | over every run each event is queued or was deleted exactly once, in the order of creation |
| LogQueue.DeletesOne | circle/lib/logger.cpp:354-450 | a fetch deletes the oldest event and no other, a report one exactly when the queue was full |
| LogQueue.EachReported | circle/lib/logger.cpp:354-450 | every report of a run creates an event |
| PllDivider.InRange | circle/lib/gpioclock-rp1.cpp:458-481 | for 32-bit rates no 64-bit step overflows, and the two parts are the quotient cut to 24 fractional bits |
| PllDivider.DividerError | circle/lib/gpioclock-rp1.cpp:458-481 | the divider is within 1/2 + 1/512 units of rate * 2^24 / parent |
| PllDivider.RateError | circle/lib/gpioclock-rp1.cpp:474-480 | the returned rate is within parent * (1/2 + 1/512) / 2^24 + 1/2 of the request |
| PllDivider.GetPLLDividers | circle/lib/gpioclock-rp1.cpp:483-512 | no pair of dividers from 1 to 7 is closer, although only half of the pairs are searched and the search ends at an exact match |
| PllDivider.DeviationIs | circle/lib/gpioclock-rp1.cpp:488-497 | what is compared is the distance of the request from the nearest integer to the divided rate |

## Left out

- HeapAllocator.CHeapAllocator.DoAllocate: the lock is released before the magic number and link of a new header are written; the call is one step here. A panic on exhaustion is the result 0 with the reserve given up, and the debug counters of HEAP_DEBUG builds are off.
- HeapAllocator.CHeapAllocator.DoReAllocate: asks for a moved request that does not wrap and an old block whose recorded size is not more than it holds, because the code otherwise copies beyond a block (CopyFits); RunFair shows that without wrapping requests the second always holds.
- HeapRuns.ReAllocateResult: the same.
- HeapAllocator.CHeapAllocator.Setup: a second call when blocks are handed out, and a reserve larger than the region's last address, where a pointer would wrap.
- HeapAllocator.CHeapAllocator.DoFree: the magic number is stored together with the link, after the bucket was found; the size word the search reads is not touched in between.
- KasanHooks.KasanAllocateHook: requests whose size with both redzones wraps around the address space are not modelled, because the hook then marks bytes the block does not have (HoldsIffFitting).
- KasanHeap.KAllocateKeeps: the same.
- KasanReAllocateHook, double-ended containers and the registration of globals; a misaligned front boundary has no encoding in the shadow.
- kasan_check_memory's address filters, which need the memory map of the machine.
- AudioRingBuffer.Init against a live reader; it is the initial state here. memcpy copies 16-bit words, in any order.
- CxaGuard.HaltsIffRecursive: assertions are taken to be compiled in. Where they are off, the recursive initialisation this lemma singles out starts the constructor a second time.
- CxaGuard.Guards.Acquire: the other cores act only between the attempts to take the lock; the state machine has them act at any time. `int` counts do not overflow: nesting is bounded by the stack.
- GenetDevice.CBcm54213Device.SendFrame: the queue number is a parameter where the code has a constant; frames are at most 1536 bytes, the size of the buffer they are copied to. Interrupt status registers, DMA priorities and cache maintenance are left out, as is reception, an easier variant of the same index arithmetic.
- GenetDevice.CBcm54213Device.TxReclaim: reads of the hardware index other than the one at the start do not occur, so what the hardware does during the loop is the next step here.
- GenetDevice.CBcm54213Device.InitTxRing: of the ring's registers the two indices and the read pointer, which the hardware steps use; not flow period, buffer size, and start and end address.
- I2cMaster.CI2CMaster.Transfer: the timers are numbers of polls and turns; interrupt bits that the mask never enables, bus timing and pin set-up are left out, and the target address is not part of the transfer.
- DeviceTreeBlob.CDeviceTreeBlob.FindNodeInternal: the bytes are those of a tree, with NOPs anywhere; on other bytes the code may leave the buffer. GetPropertyValue and GetPropertyValueLength only return fields.
- DeviceTreeBlob.CDeviceTreeBlob.GetPropertyValueWord: index 2^32 - 1 with 64-bit addresses is not modelled, because the code then reads far outside the value (GuardProtects).
- NumberParsing.Strtol: `long` has the 32-bit limits the file itself defines. For "0x" without a hexadecimal digit the code converts nothing, where the C standard converts the "0"; the model follows the code.
- sscanf's "%d" format, which is strtol behind blanks.
- QSort.QSort: the comparator is a function of the two records' bytes; one that looks at addresses is not modelled.
- OsdMenu.COSDMenu.CalculateTabSplit: the labels shown for the tabs, which are only text.
- OsdMenu.COSDMenu.MarkCurrent: a write that fails half way; a file that cannot be opened is left as it was. The directory scan and cursor movement are left out.
- Graphics.C2DGraphics.DrawCircle: radii of 2^31 and more, which are negative ints, and centre coordinates of 2^31 and more are not modelled.
- Graphics.C2DGraphics.DrawCircleOutline: centre coordinates of 2^31 and more are not modelled, because the code may then write outside the buffer (BothSumsWrap).
- Graphics.C2DGraphics.SetPixel: the buffer is a two-dimensional array of colours; packing of pixels at 1 bit depth is left out, and no side is longer than 2^28.
- Logger.CLogger.WriteEvent: an event is the number of its allocation; its text and time stamp, and an allocation that fails, are left out.
- PllDivider.RateError: rates and parent rates of 2^32 and more, where the shift by 32 loses bits.
- CKernelOptions, the page, class and number-pool allocators and the pointer list, which are easier variants of what is proved here.
- FatFs but for f_gets, USB, screen, sound devices, fonts, machine tables, MMU and PCIe set-up, and the emulator core itself.
