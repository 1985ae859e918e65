# Verified models of the RPV platform drivers

Dafny models of the parts of the board support that carry real state: the Ethernet and
sound DMA queues, the UART rings, the VGA console, the region hash, and the smaller cores
around them (clock, cache maintenance, file table, keyboard, boot page tables, number
reading). Each component has a value-level specification whose properties are proved for
all inputs and all runs; where the source updates static fields or memory in place, a class
or an array method in the same shape is proved to compute that specification.

`dafny verify dfyconfig.toml` checks everything.

## Files

| file | component |
|---|---|
| `Common.dfy` | words, bytes, optional results, ring successor |
| `Ledger.dfy` | fates of queued items, shared by the queue models |
| `Ring.dfy`, `RingRace.dfy`, `Uart.dfy` | the drop-oldest ring and its runs; a reader without a lock; AVR and MicroBlaze UART receivers |
| `SgRing.dfy` | DMA memory map, descriptor rings, transmit admission test |
| `EthRx.dfy`, `EthRxDriver.dfy`, `EthRxRace.dfy` | Ethernet receive queue: atomic steps, the driver, instruction-level interleaving |
| `EthTx.dfy`, `EthTxDriver.dfy` | Ethernet transmit queue: interleaved protocol, the driver |
| `Sound.dfy`, `SoundDriver.dfy` | sound playback service |
| `Console.dfy`, `ConsoleDriver.dfy` | VGA text console |
| `RegionHash.dfy` | region hash |
| `Timer.dfy`, `Cache.dfy`, `FileTable.dfy`, `Keyboard.dfy`, `PageTables.dfy`, `Std.dfy` | clock, cache ranges, open files, scan codes, page tables, strtoul and atol |

## What the environment is assumed to do

- Receive: the interrupt handler runs once per completed frame, before the engine touches
  the next descriptor; a frame is at most 1536 bytes (the configured maximum); the ring is set
  up again only with the engine stopped. Handlers run to completion.
- Transmit: the completion interrupt fires once per flush, when the engine has fetched all of
  the batch; set-up happens with the engine stopped; a frame is shorter than 0x7FFEFF80 bytes,
  so that its end address does not wrap (packet buffers have 16-bit lengths); the engine
  sends a frame only from a descriptor with start and end of frame set and not yet complete,
  and then marks that descriptor complete.
- Sound: a file read returns min(request, bytes left); `play` is issued only after the service
  has initialised and while it holds no file; for what is heard, each completion is handled
  before the next. Files shorter than their header says are covered.
- Clock: the overflow handler runs at the wrap; six consecutive register reads take less than
  one period of the counter.
- Boot: the four tables are zeroed, page aligned, distinct and below 4 GiB.

## Where the code does less than one would hope

Each of these has a lemma with the exact condition.

- The lock-free receive call is safe up to 9 - q interrupts between its read and its store of
  the tail, q being the frames queued at the read; one more, and the stale store counts a frame
  as both lost and delivered (`EthRxRace.InterleavingIsAtomic`, `EthRxRace.BoundIsTight`).
- So is the MicroBlaze UART's reader, up to 7 - q bytes (`RingRace.InterleavingIsAtomic`,
  `RingRace.BoundIsTight`, for any number of slots).
- The transmit admission test adds in 32 bits: a length that wraps past the top of the address
  space is admitted. No 16-bit length can (`SgRing.AdmitsExactly`).
- The hash sizes 1 and 7 give all-zero hashes (`RegionHash.DetectionExactly`).
- The first-level cache loop never ends on a range that ends in the last 16-byte line of the
  address space (`Cache.L1EndsExactly`).
- A shift or control release without a press sets the flag (`Keyboard.FlagExactly`).
- The Ethernet counters are 32 bits wide, so they count modulo 2^32; the clock falls behind
  real time by 67296 ticks per wrap (`Timer.LagExactly`).

## Model

| member | source | states |
|---|---|---|
| `DropOldest.StoreRefines` | src/arch/mc_avr/sys/uart.c:79-94 | For any ring of N slots, the index arithmetic of a push is exactly "append, forgetting the oldest when N-1 are held", for every position of the indices |
| `DropOldest.RemoveRefines` | src/arch/mc_avr/sys/uart.c:43-62 | A read takes exactly the oldest item |
| `RingRuns.RunIsFifoSuffix` | src/arch/mc_avr/sys/uart.c:43-94 | In every run of pushes and reads on N slots the content is a suffix, at most N-1 long, of what was pushed; everything older was read, in order, or lost |
| `RingRuns.PushesLeaveLast` | src/arch/mc_avr/sys/uart.c:79-94 | Pushes alone leave exactly the last N-1 items |
| `RingRace.MDoRefines` | src/arch/mb_le/sys/xuart.c:89-141 | Each instruction of a reader without a lock, and each push between two of them, is one atomic ring operation or invisible, while the bound holds |
| `RingRace.InterleavingIsAtomic` | src/arch/mb_le/sys/xuart.c:89-141 | Every interleaving of reads and pushes in which no read sees more than N-1-q pushes between loading and storing its index, q being the items queued at the load, equals an atomic run: same items read, in order, same items lost |
| `RingRace.StaleStoreBreaks` | src/arch/mb_le/sys/xuart.c:98-103 | A read about to store its index that sees N-q pushes breaks the accounting, whatever the items |
| `RingRace.BoundIsTight` | src/arch/mb_le/sys/xuart.c:89-106 | From every sound state with q > 0 items some read with any N-q pushes breaks the ring, in whichever order its test loads the indices |
| `Burst.StoreAllKeepsNewest` | src/arch/mb_le/sys/xuart.c:120-141 | A FIFO burst of any length leaves the newest N-1 of queued and arrived bytes |
| `AvrUart.Uart.Read` | src/arch/mc_avr/sys/uart.c:43-62 | Returns and removes the oldest byte; NUL and no change when empty |
| `AvrUart.Uart.OnReceive` | src/arch/mc_avr/sys/uart.c:70-95 | The handler refines the ring push; a frame error or overrun changes nothing |
| `XUart.Uart.Read` | src/arch/mb_le/sys/xuart.c:89-106 | Undisturbed, returns and removes the oldest byte; NUL and no change when empty |
| `XUart.Uart.OnIrq` | src/arch/mb_le/sys/xuart.c:114-142 | The draining loop refines a burst of ring pushes and keeps the newest seven bytes |
| `SgRing.Build` | src/arch/mb_le/sys/xdma.c:752-784 | len/chunk descriptors are linked in a ring with consecutive buffers and cleared status; later descriptors are untouched |
| `SgRing.FreshRing` | src/arch/mb_le/sys/xdma.c:752-784 | On a fresh ring every descriptor has start and end of frame set and its status clear, its buffer ends by its own length field where the next begins, and the last points back to the first |
| `SgRing.ArgsExactly` | src/arch/mb_le/sys/xdma.c:501-507 | The argument tests pass exactly for a positive number of chunks, each of whole words, within 16 KiB |
| `SgRing.SingleCycle` | src/arch/mb_le/sys/xdma.c:766-779 | The next pointers are one n-cycle: n hops come home, no fewer do, every descriptor is met |
| `SgRing.BuffersTile` | src/arch/mb_le/sys/xdma.c:764-776 | An address lies in the area iff it lies in exactly one of the n buffers |
| `SgRing.AdmitsExactly` | src/arch/mb_le/sys/xdma.c:454-474 | The enqueue test accepts iff unlocked, not the last slot and shorter than a chunk, or the 32-bit end wraps below the next buffer |
| `SgRing.AdmittedCopyStaysInSlot` | src/arch/mb_le/sys/xdma.c:463-477 | For every length up to 0x7FFEFF7F, whose end address cannot wrap, the test is exact and every accepted copy stays in its own slot |
| `SgRing.WrappingLengthIsAdmitted` | src/arch/mb_le/sys/xdma.c:470-474 | A concrete wrapping length that is accepted |
| `SgRing.AreasDisjoint` | src/arch/mb_le/sys/xdma.c:42-74 | Buffer areas and descriptor rings of the driver do not overlap |
| `EthRx.ScribbleKeeps` | src/arch/mb_le/sys/xdma.c:583-587 | The engine filling its current slot disturbs no queued frame |
| `EthRx.AdvanceIsStore` | src/arch/mb_le/sys/xdma.c:834-863 | `ethdma_queue` refines the generic ring; it reports a loss iff nine are queued |
| `EthRx.FrameDoneKeeps` | src/arch/mb_le/sys/xdma.c:834-863 | A completed frame joins the queue; on overflow exactly the oldest frame is dropped; all accounting is kept |
| `EthRx.ConsumeKeeps` | src/arch/mb_le/sys/xdma.c:521-565 | A consume succeeds iff a frame is queued and fits, and delivers the oldest one byte for byte |
| `EthRx.ResetKeeps` | src/arch/mb_le/sys/xdma.c:567-590 | Setting up again gives each queued frame the fate "discarded", one entry each, and changes no other record; the queue is empty and the invariant kept |
| `EthRx.Run` | src/arch/mb_le/sys/xdma.c:521-590 | The invariant holds after every run of engine, interrupt, consume and set-up steps |
| `EthRx.QCountIsQueued` | src/arch/mb_le/sys/xdma.c:405-413 | The unsigned queue count is the number of queued frames |
| `EthRx.Conservation` | src/arch/mb_le/sys/xdma.c:922-942 | After any run from boot: the received frames are exactly those of its arrivals; rxcount = delivered + lost + queued + discarded (mod 2^32); deliveries are the received frames marked delivered, in order; the rest sit complete in the queue; the engine's slot is not among them |
| `EthRx.FreeSlotsCleared` | src/arch/mb_le/sys/xdma.c:544-549 | In every run every free slot has its status cleared for the engine, but for the one it has just taken from a full queue |
| `EthRx.ErrorFlag` | src/arch/mb_le/sys/xdma.c:922-942 | The bus error flag is cleared by a completion without error and by a set-up, and by no other step |
| `EthRx.DrainGetsSampledCount` | src/arch/mb_le/services/eth_service.c:147-150 | A service call that sampled q frames gets q frames however many arrive and drop meanwhile |
| `EthRxDriver.Driver.constructor` | src/arch/mb_le/sys/xdma.c:336-345 | The driver starts in a state that satisfies the invariant |
| `EthRxDriver.Driver.Queue` | src/arch/mb_le/sys/xdma.c:834-863 | Head and tail update and loss report as specified |
| `EthRxDriver.Driver.OnRxIrq` | src/arch/mb_le/sys/xdma.c:922-942 | Counters, indices and bus error flag for every combination of completion and error |
| `EthRxDriver.Driver.Arrive` | src/arch/mb_le/sys/xdma.c:922-942 | Engine completion followed by the handler is the frame-done step |
| `EthRxDriver.Driver.TakeFrame` | src/arch/mb_le/sys/xdma.c:521-565 | The call refines the consume step and returns what it delivers |
| `EthRxDriver.Driver.SetUp` | src/arch/mb_le/sys/xdma.c:567-590 | Refused on bad arguments or a running engine, otherwise the call refines the set-up step |
| `EthRxDriver.Driver.QueueCount` | src/arch/mb_le/sys/xdma.c:405-413 | Returns the number of queued frames |
| `EthRxDriver.Driver.Input` | src/arch/mb_le/services/eth_service.c:134-167 | The drain loop hands on every waiting frame in order and empties the queue |
| `EthRxRace.MDoRefines` | src/arch/mb_le/sys/xdma.c:523-563 | Each instruction, interrupt and engine write is one atomic step or invisible, while the bound holds |
| `EthRxRace.InterleavingIsAtomic` | src/arch/mb_le/sys/xdma.c:521-565 | Every interleaving in which no call sees more than 9-q interrupts between reading and storing the tail equals an atomic run: no torn frame, invariant kept |
| `EthRxRace.StaleStoreBreaks` | src/arch/mb_le/sys/xdma.c:557-563 | A call about to store the tail that sees k interrupts with q + k > 9 breaks the accounting: whatever the frames, unless q + k is 9 modulo 10, and then if none equals the oldest |
| `EthRxRace.BoundIsTight` | src/arch/mb_le/sys/xdma.c:523-563 | From every sound state with q > 0 frames and any k frames with q + k > 9, some interleaving breaks the queue; at one interrupt too many whatever the frames are, and only for q + k = 19, 29, ... must they differ from the oldest |
| `EthTx.RefusedExactly` | src/arch/mb_le/sys/xdma.c:456-474 | An enqueue is refused iff not set up, locked, on the last slot, or the frame does not fit |
| `EthTx.DoKeeps` | src/arch/mb_le/sys/xdma.c:435-519 | Every instruction, fetch, interrupt, stop and set-up keeps the protocol invariant |
| `EthTx.FetchKeeps` | src/arch/mb_le/sys/xdma.c:448-451 | Each fetch puts the next accepted frame on the wire |
| `EthTx.DoneKeeps` | src/arch/mb_le/sys/xdma.c:905-913 | The completion interrupt confirms exactly the batch in flight and unlocks an empty queue |
| `EthTx.SetupKeeps` | src/arch/mb_le/sys/xdma.c:499-519 | Setting up again cuts off exactly the pending frames, the fetched ones as sent, the rest as unsent, changes neither accepted frames nor wire, and leaves an empty unlocked ring |
| `EthTx.StopRecovers` | src/arch/mb_le/sys/xdma.c:417-419 | A stop halts the engine for good, only a set-up can follow, and that one recovers from every state with no call under way: the pending frames are cut off and the queue accepts again |
| `EthTx.InFlightUntouched` | src/arch/mb_le/sys/xdma.c:445-451 | In flight implies locked, and no step writes a descriptor or buffer meanwhile |
| `EthTx.Run` | src/arch/mb_le/sys/xdma.c:435-519 | The invariant holds after every interleaving |
| `EthTx.Conservation` | src/arch/mb_le/sys/xdma.c:898-920 | After every interleaving: accepted = confirmed + pending + cut off; txcount is the confirmed frames mod 2^32; the engine fetched each frame at most once, in order, and all confirmed ones |
| `EthTx.EnqueueAlone` | src/arch/mb_le/sys/xdma.c:454-497 | The instructions of an undisturbed enqueue end in the state with the frame in its slot, the tail one on and nothing else changed, exactly when it should be accepted, and otherwise in the state they began in |
| `EthTx.FlushAlone` | src/arch/mb_le/sys/xdma.c:435-452 | The instructions of an undisturbed flush end in the state with all queued frames in flight as one batch and the queue locked; in the same state when empty or locked |
| `EthTxDriver.Driver.constructor` | src/arch/mb_le/sys/xdma.c:336-345 | The driver starts in a boot state of the protocol |
| `EthTxDriver.Driver.Enqueue` | src/arch/mb_le/sys/xdma.c:454-497 | On descriptors and flat memory the call is the undisturbed enqueue of the protocol, keeps its invariant and reports its acceptance; an accepted frame's descriptor has start and end of frame set, its status clear and the frame's length, and no other descriptor changes |
| `EthTxDriver.Driver.Flush` | src/arch/mb_le/sys/xdma.c:435-452 | The call is the undisturbed flush of the protocol; the engine's current and tail registers name the first and the last filled descriptor |
| `EthTxDriver.Driver.OnTxIrq` | src/arch/mb_le/sys/xdma.c:898-920 | A completion is the protocol's completion step and keeps its invariant; an error alone only flags |
| `EthTxDriver.Driver.Fetch` | src/arch/mb_le/sys/xdma.c:435-452 | The engine that reads the descriptor at its current address, sends from the buffer named there only a whole frame not yet complete, writes the status back and follows the next address makes the protocol's fetch step |
| `EthTxDriver.Driver.Stop` | src/arch/mb_le/sys/xdma.c:417-419 | The halt is the protocol's stop step |
| `EthTxDriver.Driver.SetUp` | src/arch/mb_le/sys/xdma.c:499-519 | Refused on bad arguments or a running engine, otherwise the protocol's set-up step and a freshly linked ring |
| `Sound.CloseCloses` | src/arch/mb_le/services/sb_service.c:201-214 | Closing closes the held file, stops the engine and ends idle without a file |
| `Sound.FaultEnds` | src/arch/mb_le/services/sb_service.c:132-138 | A bus error in a playback ends it within two calls, whatever else is flagged: file closed, engine stopped, service idle |
| `Sound.RefusalEnds` | src/arch/mb_le/services/sb_service.c:101-114 | A start the engine refuses ends the playback in the same call |
| `Sound.LostCompletionEnds` | src/arch/mb_le/services/sb_service.c:157-169 | A completion signal with no descriptor complete ends the playback in the same call |
| `Sound.QuietCall` | src/arch/mb_le/services/sb_service.c:92-151 | A call with no file to play, or with no signal pending or nothing flagged, changes nothing |
| `Sound.ServiceKeeps` | src/arch/mb_le/services/sb_service.c:78-222 | Every call keeps the invariant, whatever signals and start results it meets |
| `Sound.FilesClosedOnce` | src/arch/mb_le/services/sb_service.c:78-222 | In every run from boot each file handed over is closed exactly once or still held, a service without a file has its engine stopped, and the countdown is never taken below zero |
| `Sound.ChunksCover` | src/arch/mb_le/services/sb_service.c:260-268 | The packet count is the samples rounded up to chunks |
| `Sound.HeardIs` | src/arch/mb_le/services/sb_service.c:171-197 | The expected stream is two silent chunks, all samples once in order, silence to a chunk boundary |
| `Sound.RefillIsChunk` | src/arch/mb_le/services/sb_service.c:171-197 | The refill after c refills writes chunk c+2 of the expected stream |
| `Sound.HandlePlays` | src/arch/mb_le/services/sb_service.c:139-199 | Handling a completion continues the playback, or closes it at completion N+2 |
| `Sound.PlaybackIsHeard` | src/arch/mb_le/services/sb_service.c:101-199 | From a play command on an idle service, in every run in which completions are handled in time, the output is the expected stream so far, and the file is closed only at completion N+2 with everything heard |
| `Sound.ClosedAtLastCompletion` | src/arch/mb_le/services/sb_service.c:101-199 | From a play command on an idle service with prompt handling the file is held through N+1 completions and closed at the (N+2)th |
| `SoundDriver.SbService.TakeComplete` | src/arch/mb_le/sys/xdma.c:606-643 | Finds and clears the first complete descriptor in ring order; none if its length is another |
| `SoundDriver.SbService.Write` | src/arch/mb_le/services/sb_service.c:153-199 | The write state refines the specification, short and empty reads included |
| `SoundDriver.SbService.Service` | src/arch/mb_le/services/sb_service.c:78-222 | The self-recursive switch terminates and refines the specification |
| `SoundDriver.SbService.Play` | src/arch/mb_le/services/sb_service.c:260-278 | Packet count, size and descriptor handed over |
| `Console.TypeLaysOut` | src/arch/x86_64/print.c:77-87 | Printable text that does not scroll fills consecutive cells across rows and nothing else |
| `Console.EraseBlanks` | src/arch/x86_64/print.c:112-130 | n deletes blank exactly the n cells before the cursor |
| `Console.EraseUndoesType` | src/arch/x86_64/print.c:77-130 | n characters and n deletes return to the same linear position and blank exactly those cells |
| `Console.DoShows` | src/arch/x86_64/print.c:37-158 | Every operation on the buffer is the same operation on an unbounded document, seen through the last 25 rows |
| `Console.RunShows` | src/arch/x86_64/print.c:37-158 | The same for every sequence of operations |
| `Console.RunFromClear` | src/arch/x86_64/print.c:45-53 | From clear, whatever was on the screen |
| `Console.ScrolledOffIsKept` | src/arch/x86_64/print.c:139-158 | No operation changes what has scrolled off |
| `Console.Printed` | src/arch/x86_64/print.c:59-158 | Any number of lines of up to 80 characters, printed with line feeds between them after a clear, show as the last 25 of them, row by row, blanks to the right and below, the cursor at the end of the last |
| `Console.TypeShows` | src/arch/x86_64/print.c:91-98 | Any string, whatever control characters are in it, is shown as the document has it |
| `Console.Controls` | src/arch/x86_64/print.c:61-70 | A tab is four spaces, a carriage return goes to the start of the row, a line feed to the next row or scrolls the whole screen up by one; none but the tab writes |
| `Console.Deletes` | src/arch/x86_64/print.c:72-75 | Both delete codes go one place back, over the start of a row too, and blank it; nothing at the top left |
| `Console.Lands` | src/arch/x86_64/print.c:37-57 | The next character lands where the cursor was put, in the colour that was set; positions off the screen are ignored |
| `ConsoleDriver.Vga.SetXY` | src/arch/x86_64/print.c:37-43 | Moves the cursor, ignores positions off the screen |
| `ConsoleDriver.Vga.ClearRow` | src/arch/x86_64/print.c:100-110 | Blanks exactly one row |
| `ConsoleDriver.Vga.Clear` | src/arch/x86_64/print.c:45-53 | Blanks all rows and homes the cursor |
| `ConsoleDriver.Vga.NewLine` | src/arch/x86_64/print.c:139-158 | Next row, or the in-place scroll by one row |
| `ConsoleDriver.Vga.Del` | src/arch/x86_64/print.c:112-130 | Steps back over the row boundary and blanks; nothing at the top left |
| `ConsoleDriver.Vga.Glyph` | src/arch/x86_64/print.c:77-87 | Deferred wrap, write, step |
| `ConsoleDriver.Vga.Tab` | src/arch/x86_64/print.c:132-137 | Four spaces |
| `ConsoleDriver.Vga.PutChar` | src/arch/x86_64/print.c:59-89 | The character switch |
| `ConsoleDriver.Vga.PutString` | src/arch/x86_64/print.c:91-98 | The run of all characters up to the terminator, control characters too, in order |
| `Mixing.Compute` | src/arch/mb_le/services/sec_service.c:120-151 | The three in-place loops compute the specified hash |
| `Mixing.MixInjective` | src/arch/mb_le/services/sec_service.c:131-142 | A main-loop step is injective on the hash state |
| `Mixing.MixSeparates` | src/arch/mb_le/services/sec_service.c:131-142 | Different bytes lead one state to different states, for size at least 2 |
| `Mixing.FinalInjective` | src/arch/mb_le/services/sec_service.c:145-148 | A final-pass step is injective unless the size divides 7 |
| `Mixing.OneByteDetected` | src/arch/mb_le/services/sec_service.c:120-151 | Regions that differ in one byte have different hashes, any length, any position |
| `RegionHash.BytesInjective` | src/arch/mb_le/services/sec_service.c:137-147 | The byte operations are injective |
| `RegionHash.Arithmetic` | src/arch/mb_le/services/sec_service.c:120-148 | The byte operations in arithmetic modulo 256; rotation by 5 is undone by rotation by 3 |
| `RegionHash.HashIs` | src/arch/mb_le/services/sec_service.c:120-151 | Every byte of the hash, for every region and size, is given by an independent recursion of that byte alone, through the region and then the last pass |
| `RegionHash.HashRegion` | src/arch/mb_le/services/sec_service.c:120-151 | The in-place loops on bytes leave exactly these bytes |
| `RegionHash.KnownAnswer` | src/arch/mb_le/services/sec_service.c:120-151 | The size-2 hash of the byte 1 is 137, 213 |
| `RegionHash.DetectionExactly` | src/arch/mb_le/services/sec_service.c:120-151 | Single-byte changes are always detected iff the size is neither 1 nor 7; for those the hash is constant |
| `Timer.ConsistentSnapshot` | src/arch/mb_le/sys/xtimer.c:90-94 | Equal overflow counts around the counter read mean no wrap in between |
| `Timer.Millis` | src/arch/mb_le/sys/xtimer.c:86-99 | At most one retry; the result is the 32-bit millisecond value of the instant of the last counter read |
| `Timer.Nondecreasing` | src/arch/mb_le/sys/xtimer.c:9-12 | The uncut value never steps back, wraps included |
| `Timer.LagExactly` | src/arch/mb_le/sys/xtimer.c:9-12 | Never ahead of real time; the lag is floor((67296*overflows + ticks mod 100000)/100000) |
| `Cache.LinesExactly` | src/arch/mb_le/sys.S:72-159 | The listed lines are exactly those that meet the range, each once |
| `Cache.L2Range` | src/arch/mb_le/sys.S:72-96 | The counted-down loop ends for every range, wrapping ones included, having touched the lines from that of the last byte down to that of the first; the flush loop has the same bounds |
| `Cache.L2Covers` | src/arch/mb_le/sys.S:72-96 | For a range that does not wrap these are exactly the 64-byte lines that meet it |
| `Cache.L1Range` | src/arch/mb_le/sys.S:103-128 | The counted-up loop touches the 16-byte lines from that of the first byte to that of the last, none if the range wraps to a lower line |
| `Cache.L1Covers` | src/arch/mb_le/sys.S:103-128 | For a range that does not wrap these are exactly the 16-byte lines that meet it |
| `Cache.L1EndsExactly` | src/arch/mb_le/sys.S:113-121 | For every range, wrapping ones included, the loop test fails eventually iff the last byte is not in the top line |
| `Cache.DescriptorsApart` | src/arch/mb_le/sys/xcache.c:17-27 | Maintaining a descriptor touches no line of another |
| `Cache.SlotsApart` | src/arch/mb_le/sys/xcache.c:17-27 | Maintaining part of a frame slot touches no line of another |
| `FileTable.OpenKeeps` | src/fatfs/fat.c:148-171 | An open yields a handle iff an entry is free and the file system agrees: the lowest free one, shared with none; no other entry changes, and none at all without a handle |
| `FileTable.CloseKeeps` | src/fatfs/fat.c:130-146 | A close of a handle in use frees its entry and no other and lowers the count by one; any other handle changes nothing |
| `FileTable.UsedIsFull` | src/fatfs/fat.c:150-152 | The count is full iff no entry is free |
| `FileTable.MountKeeps` | src/fatfs/fat.c:31-43 | A successful mount empties the table, a failed one leaves every handle; the code reports the result |
| `FileTable.RunKeeps` | src/fatfs/fat.c:31-43 | In every run of mount, open and close the count equals the entries in use and entry i is null or object i |
| `FileTable.HandleLives` | src/fatfs/fat.c:31-171 | A handle in use stays in use, as the same object, and is handed out to no one else, in every run that neither closes it nor mounts |
| `FileTable.Files.MountDisk` | src/fatfs/fat.c:31-43 | A successful mount empties the table, a failed one leaves it |
| `FileTable.Files.OpenFile` | src/fatfs/fat.c:148-171 | The search loop stays inside the table; result and new table as specified |
| `FileTable.Files.CloseFile` | src/fatfs/fat.c:130-146 | The call is the specified close: invalid descriptors are ignored, others freed alone |
| `Keyboard.Decode` | src/arch/x86_64/keyb.c:110-119 | First table index of the code, or 0xFF iff absent |
| `Keyboard.EntryInTable` | src/arch/x86_64/keyb.c:85-92 | A decoded index, shifted or not, is at least 1 and below 171 |
| `Keyboard.Keyboard.OnScan` | src/arch/x86_64/keyb.c:51-108 | Flags and published event for every code and state |
| `Keyboard.FlagExactly` | src/arch/x86_64/keyb.c:59-82 | A modifier flag equals the physically held key at every moment iff every release follows a press |
| `Keyboard.StreamDecoded` | src/arch/x86_64/keyb.c:51-108 | On every stream with paired shift releases the events are, in order, what the tables alone say: the first entry with the code, its name or with a shift held the one 85 on, a one-character name as its character, any other as 0; none for 0xF0 |
| `Keyboard.DriverTables` | src/arch/x86_64/keyb.c:26-43 | The driver's tables have the sizes and first entry that decoding relies on |
| `Keyboard.ShiftedNames` | src/arch/x86_64/keyb.c:34-43 | In the driver's tables shift makes capitals of the letters, changes nine punctuation keys as listed, and leaves digits, brackets and named keys |
| `Keyboard.LetterPublished` | src/arch/x86_64/keyb.c:85-101 | Pressing the i-th letter publishes it, a capital if a shift is held |
| `PageTables.OrIsAdd` | src/arch/x86_64/sys/boot/main32.asm:108-147 | The bitwise or of n bits of flags into a multiple of 2^n is their sum |
| `PageTables.MapPages` | src/arch/x86_64/sys/boot/main32.asm:123-162 | The counted loops fill consecutive 2 MiB entries and nothing else |
| `PageTables.Build` | src/arch/x86_64/sys/boot/main32.asm:106-164 | All four tables after setup |
| `PageTables.WalkExactly` | src/arch/x86_64/sys/boot/main32.asm:106-164 | The 4-level walk maps the first GiB to itself, cached, the next 4 MiB to 0xFEC00000 on, uncached, all writable and for the kernel alone, and nothing else |
| `Std.StrToUl` | src/arch/x86_64/std.c:7-55 | Value mod 2^64 of the longest run of hex digits after the skipped prefix, and its end; 0 for null or another base |
| `Std.StrToUlInverts` | src/arch/x86_64/std.c:19-54 | It undoes hex printing below 2^64, either case, with or without 0x and leading zeros, before any tail |
| `Std.NumeralSpells` | src/arch/x86_64/std.c:30-48 | Printed numerals are spellings that the two readers invert |
| `Std.DigitValues` | src/arch/x86_64/std.c:30-44 | The characters that count as digits, in either case, and their values |
| `Std.AToL` | src/arch/x86_64/std.c:57-93 | White space, sign and digits read as the signed decimal value; the digit loop it calls asserts that no product or sum on the way reaches 2^63 |
| `Std.AToLInverts` | src/arch/x86_64/std.c:57-93 | It undoes decimal printing with either sign or none, with or without leading zeros, after any blanks, tabs and line feeds, before any tail |

## Left out

- Register layouts, busy waits, PHY, SD card, SPI, GPIO, interrupt controllers and disk port I/O: hardware polling without closed behaviour.
- The kernel, FatFs, lwIP and the security guardian: their code is not in the repository; only the contracts listed above are assumed of them.
- Shell commands, journal messages, prompts and WAV header checks.
- The per-field error bits of DMA descriptors; they are only ever cleared.
- memcpy, memset and file reads into the sound buffers are single updates of a value, so a partly written sound buffer is not represented; the frame copies of the Ethernet queues are byte by byte.
- EthRxDriver.Driver.SetUp: of the arguments that pass its tests, only the ten 1536-byte slots that both callers use; other ring sizes are covered by SgRing.Build.
- EthTxDriver.Driver.SetUp: of the arguments that pass its tests, only the same ring.
- EthTxDriver.Driver.OnTxIrq: a completion arrives only when the engine has fetched its batch, as listed under the environment.
- EthRxDriver.Driver.Input: states the drain without arrivals; arrivals during it are in EthRx.DrainGetsSampledCount, and packet buffer allocation failures are not modelled.
- Console.Do: the colour is one byte; composing it from foreground and background is a single expression.
- EthTxDriver.Driver.Enqueue: for lengths below 0x7FFEFF80; which of the longer ones, whose end address can wrap, are admitted is in SgRing.AdmitsExactly, but not what their copy overwrites.
- Cache.L1Range: excludes ranges that end in the last line of the address space, on which the source never returns (Cache.L1EndsExactly).
- Timer.Millis: the read times come from a schedule; with arbitrarily slow reads the retry loop need not end.
- Std.AToL: requires a magnitude below 2^63, because signed overflow is undefined in C.
- XUart.Uart.Read: the call in its own form is atomic; the source takes no lock, and interrupts between its instructions are in RingRace.
- SoundDriver.SbService.TakeComplete: one length stands for both descriptors, which are always built alike.
- Pbuf chains are queued segment by segment, so one enqueue call is one frame.
- FAT timestamps and attributes, BCD, MAC byte order, string routines: single expressions or textbook loops.
