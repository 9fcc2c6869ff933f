# CrabOS: verified models of its state machines

CrabOS is a small x86_64 kernel whose interesting logic is hand-written state
machines: an interrupt-driven executor, a network driver that shares descriptor
rings with a device, two heap allocators, a text console with a line editor, and
a small web-page renderer. This project models those machines in Dafny and
proves what holds over all their runs.

`dafny verify dfyconfig.toml` checks everything.

Each component comes as a pair. A value model (datatypes and functions) carries
the invariants and the theorems about whole runs. A class beside it has the
source's fields and loops, and each of its methods is proved to compute exactly
the corresponding step of the value model, so the theorems are about the class
too.

| component | value model and theorems | imperative form |
|---|---|---|
| interrupts, wakers, executor | `Kernel`, `Decoders`, `BaselineGap` | `Machine` |
| e1000 descriptor rings | `Nic`, `NicRuns` | `E1000` |
| linked-list allocator | `AlignUp`, `Layouts`, `Heap`, `HeapRuns` | `LinkedList` |
| fixed-size block allocator | `Pool`, `PoolRuns` | `FixedSizeBlock` |
| terminal and scrollback ring | `Cursor`, `Terminal`, `Painting`, `LogRuns` | `Writer` |
| line editor, history, completion | `LineEditor`, `History`, `Completion` | `LineBuffer`, `HistoryRing` |
| shell on its terminal | `Shell`, `KeyRuns`, `Output`, `Consoles`, `Focus` | `ShellState` |
| argument parser | `Arguments` | `ArgumentList`, `ParseArguments` |
| desktop, mouse, rendering | `Desktop`, `Pointing` | `DesktopState`, `Frame` |
| kernel and consoles together, and on the display | `Whole` | `Screen` |
| URLs and web pages | `Scanning`, `Url`, `Html`, `WebPage` | `RenderHtml`, `Render` |

How the parts of the machine that are not in the source are modelled:

- An interrupt handler is one step; it may run between any two atomic accesses
  of a task or of the executor, never while interrupts are off. `AtomicWaker` is
  an atomic optional task id.
- The network device follows the head/tail rule of sections 3.2.6 and 3.4 of the
  Intel 8254x Software Developer's Manual. What it does between two accesses of
  a driver function is a parameter of that function.
- The heap that backs the fixed-size allocator answers each request through a
  parameter, under an assumed contract: the block is aligned and disjoint from
  every block it has handed out and not taken back, or the answer is null.
- Command output and banners are parameters: any bytes but carriage returns,
  and colour changes, ending with a newline or a clear.
- History variables (arrival stamps, packets written and sent, live blocks,
  mouse counts) are never read by a transition.

Some promises do not hold as one would first state them; for each there is a
concrete input or run, and the exact condition.

- The first keyboard decoder is fed a gap-free stretch, whatever happens after
  the baseline read of the drop counter, if and only if nothing had been dropped
  by then or no scancode was queued (`Decoders.FirstDecoderExactly`).
  `BaselineGap.DropBeforeBaselineLeavesGap` is a run that breaks it.
- Transmission is stuck for good if and only if all eight descriptors are
  outstanding and no packet is in flight (`NicRuns.StuckExactly`): TDT then
  equals TDH and the device sees an empty ring. A slow device lets the driver
  get there (`NicRuns.RingFills`).
- The URL parser agrees with section 3.2.2 of RFC 1945 about the port if and
  only if the input is not a URL with a bare colon, which it refuses, or with a
  plus sign before the port, which it accepts (`Url.AgreesWithRfcExactly`).
- Rendering entity-escaped text gives the text back if and only if no space
  follows a space or a newline (`Html.EscapedTextComesBack`); "a  b" does not
  come back (`Html.DoubledSpaceIsSqueezed`).
- A rendered page has no blank line, leading space or doubled space if and only
  if no shown `&nbsp;` comes right after a space or a newline of the text
  (`Html.TidyExactly`).
- A script or style element leaves nothing behind, wherever it stands, if and
  only if its code is quiet (`Html.ScriptsAreHiddenExactly`): a scan of the code
  alone meets no character outside hidden text, no tag that starts a line, and
  no unclosed `<` unless what it swallows still ends a script. On the page
  `<script>a<b</script>x` the x is lost (`Html.ComparisonHidesThePage`).

## Model

| member | source | states |
|---|---|---|
| `Kernel.NoLostWakeup` | src/task/executor.rs:39-102 | In every interleaving of interrupts with task steps, also between the pop that finds nothing and the moment interrupts are off, whenever the executor halts both tasks have run, the task queue and the scancode queue are empty and no repaint is pending. |
| `Kernel.SleepCheckIsNeeded` | src/task/executor.rs:95-102 | A run in which an interrupt queues a task just before interrupts are off: an executor that slept without checking again would lose it. |
| `Kernel.IdleTaskWithWorkIsQueued` | src/task/keyboard.rs:62-79 | A task that is not being polled and has work waiting always has its id in the task queue. |
| `Kernel.QuietKernelFinishesAllWork` | src/task/executor.rs:87-102 | From every reachable state, without further interrupts, the processor halts within a stated number of accesses with all events handled. |
| `Decoders.DecodersSeeGapFreeSegments` | src/task/keyboard.rs:117-151 | The bytes fed to every decoder instance after the first are a contiguous slice of the arrival stream, also when drops occur between the counter read and the drain; so are those of the first one when its baseline read missed no gap. |
| `Decoders.FirstDecoderExactly` | src/task/keyboard.rs:110-121 | The first decoder is gap-free in every continuation of the baseline read if and only if nothing had been dropped by then or no scancode was queued. |
| `BaselineGap.DropBeforeBaselineLeavesGap` | src/task/keyboard.rs:110-118 | A concrete run of 101 scancodes in which the condition fails and the first decoder is fed across a gap. |
| `Whole.AsleepIsUpToDate` | src/task/keyboard.rs:22-184 | The interrupt protocol, the desktop and both consoles in one system, for any decoder, with a history of every scancode and click that the interrupts had for a started shell, read off the inputs. In every interleaving the terminals are the consoles' run over the events handled, without a fault; the drop counter is the number of scancodes that met 100 waiting events, and input is lost at most that often. Whenever the processor halts, every mouse packet has been painted and the shell has been told exactly what the scancodes and clicks offered since the last loss mean, in order, but for those that met a full queue; if none ever did, everything offered since boot. |
| `Whole.ClicksMean` | src/task/keyboard.rs:140-146 | A click on the [x] of a window closes that window, one on the icon opens a terminal. |
| `Whole.KeysMean` | src/task/keyboard.rs:147-183 | A scancode that completes a key acts as that key: Ctrl+C closes the active terminal, Ctrl+Q opens one, any other goes to the active shell; one that completes none does nothing. |
| `Machine.Processor.PollShell` | src/task/keyboard.rs:110-151 | One poll of `run_shell`, under any interrupts between its accesses, is a run of the model, ends, and leaves the task queued, or its waker registered with no event waiting. |
| `Machine.Processor.PollRedraw` | src/desktop.rs:127-140 | One poll of `run_redraw_worker` likewise; afterwards the task is queued, or its waker registered with no repaint due. |
| `Machine.Processor.RunReadyTasks` | src/task/executor.rs:31-61 | The pop loop is a run of the model, ends under any finite script of interrupts, and returns only after a pop that found nothing. |
| `Machine.Processor.SleepIfIdle` | src/task/executor.rs:95-102 | Interrupts may come before the disable; it stays asleep only with nothing left to do. |
| `Machine.Processor.RunExecutor` | src/task/executor.rs:87-102 | Under any finite script of interrupts `Executor::run` takes each of them, in order, and ends asleep with empty queues and no repaint due. |
| `NicRuns.ReceivedExactlyTheAcceptablePackets` | src/net/e1000.rs:174-193 | In every driver/device run each consumed descriptor with EOP, no errors and length at most 2048 has yielded one packet, its buffer's first `length` bytes, in order, and every other one none; RDT is always `rx_next - 1` modulo 8. |
| `NicRuns.CompletedBuffersAreStable` | src/net/e1000.rs:174-193 | No device step touches a completed buffer before it is copied and returned. |
| `NicRuns.SentIsPrefixOfAccepted` | src/net/e1000.rs:195-211 | What the device has sent is always a prefix of what was accepted, byte for byte; DD is clear exactly on the rest, at most eight, each still holding its packet. |
| `NicRuns.DriverSparesDeviceSlots` | src/net/e1000.rs:195-211 | The driver never writes a transmit slot that the device owns. |
| `NicRuns.SendAcceptsIffReady` | src/net/e1000.rs:195-216 | A packet is accepted if and only if it fits and the next descriptor is free, whatever the device does meanwhile. |
| `NicRuns.TokenNeverDropsPacket` | src/net/e1000.rs:230-258 | After a token, any device activity and reception leave a packet of at most 2048 bytes acceptable. |
| `NicRuns.StuckExactly` | src/net/e1000.rs:195-216 | From an idle state no run of driver and device ever sends another packet if and only if all eight descriptors are outstanding and none is in flight. |
| `NicRuns.FullRingNeverMoves` | src/net/e1000.rs:195-216 | In that state the whole transmit ring never changes again and no packet is accepted. |
| `NicRuns.RingFills` | src/net/e1000.rs:195-211 | That state is reachable. |
| `E1000.Controller.constructor` | src/net/e1000.rs:140-159 | Ring setup establishes the invariant. |
| `E1000.Controller.ReceivePacket` | src/net/e1000.rs:174-193 | Whatever the device does meanwhile, a done slot with EOP, no errors and length at most 2048 gives its first `length` bytes, any other done slot gives none and is returned to the device, and without a done slot nothing changes but by the device; the accesses are the protocol's steps. |
| `E1000.Controller.SendPacket` | src/net/e1000.rs:195-211 | The packet itself is accepted if it fits and the next descriptor is free, else nothing changes; the accesses are the protocol's steps. |
| `E1000.Controller.IsTransmitReady` | src/net/e1000.rs:213-216 | Reads the next descriptor's DD bit. |
| `E1000.Controller.ReceiveTokens` | src/net/e1000.rs:248-254 | Tokens are handed out only when a descriptor is free, and it still is afterwards. |
| `AlignUp.MaskIsRoundUp` | src/allocator.rs:83-85 | The bit-mask form is arithmetic rounding: the least multiple of the alignment not below the address, for every address and power of two that do not overflow 64 bits. |
| `HeapRuns.AdjustedExactly` | src/allocator/linked_list.rs:30-38 | The adjusted alignment is the larger of the layout's and 8; the adjusted size is the least multiple of it not below the layout's size, or 16 if that is less. |
| `HeapRuns.AllocSucceedsExactly` | src/allocator/linked_list.rs:65-114 | `alloc` returns an address if and only if some free region holds the block at its first aligned address with a rest of 0 or at least 16 bytes, and returns that address in the first such region. |
| `HeapRuns.RestGoesFirst` | src/allocator/linked_list.rs:98-114 | What is left of the chosen region becomes the first free region; the others keep their order. |
| `HeapRuns.FreedBlockIsReused` | src/allocator/linked_list.rs:98-120 | A block just freed serves the next request of its layout, at the same address. |
| `Heap.AllocKeepsInv` | src/allocator/linked_list.rs:98-114 | `alloc` keeps the tiling: every heap address lies in exactly one free region, live block or lost padding. |
| `Heap.DeallocKeepsInv` | src/allocator/linked_list.rs:116-120 | `dealloc` keeps the tiling, and its region meets the assertions of `add_free_region`. |
| `HeapRuns.EveryRunIsSafe` | src/allocator/linked_list.rs:30-120 | In every run: live blocks are aligned, large enough, in the heap, disjoint from each other and from free regions; free regions are disjoint, 8-aligned and at least 16 bytes; free, live and lost bytes add up to the heap size. |
| `HeapRuns.AllocatedBlockWasFree` | src/allocator/linked_list.rs:98-114 | A returned block is not null, is aligned and lay wholly in one free region. |
| `HeapRuns.LostNeverShrinks` | src/allocator/linked_list.rs:65-78 | Lost padding never decreases. |
| `HeapRuns.NothingLostWithSmallAlignments` | src/allocator/linked_list.rs:30-37 | No padding is lost if every alignment is at most 8. |
| `HeapRuns.BoundariesRemain` | src/allocator/linked_list.rs:52-62 | Block boundaries never disappear, because nothing is coalesced. |
| `HeapRuns.FragmentationIsPermanent` | src/allocator/linked_list.rs:80-96 | Once every piece is too small for a layout, no run of requests and returns makes it servable again. |
| `Heap.FirstFit` | src/allocator/linked_list.rs:80-96 | The region chosen fits and none before it does. |
| `LinkedList.LinkedListAllocator.FindRegion` | src/allocator/linked_list.rs:80-96 | The walk along the chain of nodes unlinks exactly the first fit and leaves the others linked in order. |
| `LinkedList.LinkedListAllocator.AllocFromRegion` | src/allocator/linked_list.rs:65-78 | The checked, bit-mask form agrees with the arithmetic one. |
| `LinkedList.NodeUnlinked` | src/allocator/linked_list.rs:80-96 | Redirecting the node before a region takes exactly that region off the chain. |
| `LinkedList.LinkedListAllocator.AddFreeRegion` | src/allocator/linked_list.rs:52-62 | Writing a node into free memory pushes its region on the chain and spoils no other node. |
| `LinkedList.LinkedListAllocator.Allocate` | src/allocator/linked_list.rs:98-114 | On the chain of nodes in memory, refines `Heap.Alloc`; both assertions of `add_free_region` hold. |
| `LinkedList.LinkedListAllocator.Deallocate` | src/allocator/linked_list.rs:116-120 | Likewise refines `Heap.Dealloc`. |
| `FixedSizeBlock.EveryRunIsSafe` | src/allocator/fixed_size_block.rs:12-62 | In every run: cached and live blocks are exactly what the fallback handed out, pairwise disjoint; each cached block has the size and alignment of its list; live blocks satisfy their layouts; `REQUESTED_BYTES` is the sum of the live requested sizes. |
| `PoolRuns.HeldIsPeak` | src/allocator/fixed_size_block.rs:12-62 | In every run the fallback has been asked for exactly as many blocks of each class as were ever live at once: a cached block is always used first, a freed one is always kept. |
| `PoolRuns.FreedBlockIsNext` | src/allocator/fixed_size_block.rs:12-55 | The last block of a class to be freed is the next one handed out, and the fallback is not asked. |
| `PoolRuns.LargeBlocksPassThrough` | src/allocator/fixed_size_block.rs:32-61 | Above 2048 bytes a block comes from the fallback and goes straight back to it. |
| `PoolRuns.ClassExactly` | src/allocator/fixed_size_block.rs:92-95 | The class chosen is the one whose blocks are large enough while those of the class below are not; there is none exactly above 2048. |
| `FixedSizeBlock.AllocatedBlockIsFresh` | src/allocator/fixed_size_block.rs:12-37 | A returned block overlaps no live block. |
| `FixedSizeBlock.CachedBlockFitsClass` | src/allocator/fixed_size_block.rs:38-55 | A block cached in list i is a whole block of that class. |
| `FixedSizeBlock.LiveBlockSatisfiesLayout` | src/allocator/fixed_size_block.rs:12-37 | A live block is aligned for its layout and backed by enough bytes. |
| `FixedSizeBlock.FixedSizeBlockAllocator.FindClass` | src/allocator/fixed_size_block.rs:92-95 | The search finds the smallest class that is large enough. |
| `FixedSizeBlock.FixedSizeBlockAllocator.Allocate` | src/allocator/fixed_size_block.rs:12-37 | On the nine lists linked through memory, refines `Pool.Alloc`. |
| `FixedSizeBlock.FixedSizeBlockAllocator.Deallocate` | src/allocator/fixed_size_block.rs:38-62 | Likewise refines `Pool.Dealloc`: the block is in no list yet, so writing its node spoils none; the counter never underflows. |
| `Cursor.OffsetIsSteps` | src/vga_buffer.rs:53-67 | `offset` is the closed form of stepping over printable bytes, with pending wrap. |
| `Cursor.OffsetComposes` | src/vga_buffer.rs:53-67 | offset(a + b) = offset(a).offset(b). |
| `Terminal.WritePlainPaints` | src/vga_buffer.rs:160-190 | One byte paints exactly one cell and steps the cursor, wrapping first when a wrap is pending. |
| `Painting.ReplaceInputPaints` | src/vga_buffer.rs:204-214 | `replace_input` paints the line and blanks at the anchor and nothing else, and puts the cursor where stepping leads. |
| `Painting.RedrawShowsInput` | src/vga_buffer.rs:204-214 | Whatever the old and new lengths, the old line is gone, the new one is shown, and cells before the anchor are unchanged. |
| `Painting.PrintAppends` | src/vga_buffer.rs:160-202 | Output never changes a cell before the cursor. |
| `LogRuns.EveryRunStaysInWindow` | src/vga_buffer.rs:147-225 | After any sequence of writes, redraws and scrolls `first_line <= view_top <= live_top` and `first_line <= cursor.line <= last_line`. |
| `LogRuns.LineControlsMove` | src/vga_buffer.rs:160-168 | A newline starts the next row, a return goes back to the start of the row, and neither changes what is written. |
| `LogRuns.TabFillsToTheStop` | src/vga_buffer.rs:169-174 | A tab writes blanks up to the next column divisible by four. |
| `LogRuns.OtherBytesPrint` | src/vga_buffer.rs:175-188 | Any other byte writes itself, or 0xfe if it is not printable, and returns the view to the live rows. |
| `LogRuns.PagesExactly` | src/vga_buffer.rs:216-226 | n pages up or down move the view by fifteen rows each, as far as the first held row or the live view. |
| `LogRuns.EveryHeldRowCanBeRead` | src/vga_buffer.rs:216-221 | From the live view, some number of pages up shows any given row still held: no row falls between two pages. |
| `LogRuns.DownUndoesUp` | src/vga_buffer.rs:216-226 | As many pages down as up lead back to the live view. |
| `Writer.Writer.constructor` | src/vga_buffer.rs:81-93 | A blank terminal. |
| `Writer.Writer.Clear` | src/vga_buffer.rs:123-132 | The ring holds a one-line log. |
| `Writer.Writer.SetColumns` | src/vga_buffer.rs:142-145 | The width changes, the cursor does not. |
| `Writer.Writer.EnsureLine` | src/vga_buffer.rs:151-158 | For every line still in range slot `line % 128` holds that log row. |
| `Writer.Writer.WriteByte` | src/vga_buffer.rs:160-190 | The ring refines writing to the unbounded log. |
| `Writer.Writer.WriteString` | src/vga_buffer.rs:192-202 | Likewise for any text, with one replacement byte for each character that is not ASCII. |
| `Writer.Writer.ReplaceInput` | src/vga_buffer.rs:204-214 | Likewise for a redraw. |
| `Writer.Writer.ScrollUp` | src/vga_buffer.rs:216-221 | Likewise for scrolling back. |
| `Writer.Writer.ScrollDown` | src/vga_buffer.rs:223-226 | Likewise for scrolling forward. |
| `Writer.Writer.DisplayedRow` | src/vga_buffer.rs:406-417 | The row read from the ring is the log row it stands for. |
| `LineEditor.EditorRefinesReference` | src/shell.rs:59-102 | For every edit sequence the buffer equals the before/after-cursor pair; `cursor <= len <= 256`, every byte printable, overflow implies a full line. |
| `LineEditor.DeleteWordRemovesSpacesThenWord` | src/shell.rs:95-102 | Ctrl+W removes exactly the spaces and then the word before the cursor. |
| `LineEditor.LineBuffer.CopyWithin` | src/shell.rs:63-86 | The overlapping copy moves the range and nothing else. |
| `LineEditor.LineBuffer.InsertByte` | src/shell.rs:63-77 | Insertion in place; refused when unprintable or full. |
| `LineEditor.LineBuffer.DeleteByte` | src/shell.rs:79-86 | Deletion in place. |
| `LineEditor.LineBuffer.BackspaceByte` | src/shell.rs:88-93 | Deletion before the cursor. |
| `LineEditor.LineBuffer.EraseLastWord` | src/shell.rs:95-102 | The two loops of `delete_word`. |
| `LineEditor.LineBuffer.EraseToStart` | src/shell.rs:364-374 | Ctrl+U. |
| `LineEditor.LineBuffer.EraseToEnd` | src/shell.rs:375-380 | Ctrl+K. |
| `History.HistoryIsLastSixteen` | src/shell.rs:128-142 | The ring is the last 16 of the non-blank commands with consecutive repeats removed. |
| `History.DraftIsRestored` | src/shell.rs:144-175 | k Ups and min(k, len) Downs restore the draft, cursor and overflow flag included, whatever lines are passed in between. |
| `History.UpShowsOlderCommands` | src/shell.rs:144-159 | After k Ups the k-th newest command is shown, or the oldest, with the cursor at its end. |
| `History.DownShowsNewerCommands` | src/shell.rs:161-175 | After k Ups, each Down shows the next newer command, with the cursor at its end. |
| `History.BlankMeansSpaces` | src/shell.rs:128-132 | A line of the editor counts as blank exactly when it is all spaces. |
| `KeyRuns.HistoryHoldsSubmittedLines` | src/shell.rs:304-319 | Over every run of keys the history is the last sixteen of the lines held at each Enter that did not overflow, all-space lines and consecutive repeats left out. |
| `KeyRuns.UpRecallsTheLastCommand` | src/shell.rs:304-363 | Enter followed by Up shows the line just submitted. |
| `KeyRuns.EnterRecords` | src/shell.rs:306-322 | Enter records the line unless it overflowed, ends browsing and starts an empty line. |
| `KeyRuns.EveryBindingEdits` | src/shell.rs:344-382 | Each editing key and control character makes its edit and changes nothing else of the shell. |
| `KeyRuns.PrintableIsTyped` | src/shell.rs:391-393 | A printable character is inserted at the cursor, or marks a full line as overflowed. |
| `KeyRuns.MeaninglessIsIgnored` | src/shell.rs:391-394 | Characters that mean nothing change nothing of the shell. |
| `KeyRuns.BrowsingKeys` | src/shell.rs:358-363 | Up, Down, Ctrl+P and Ctrl+N browse. |
| `KeyRuns.ScrollingKeys` | src/shell.rs:383-390 | PageUp and PageDown scroll and leave the shell alone; other keys do nothing. |
| `KeyRuns.ClearingKeepsTheLine` | src/shell.rs:334-340 | Ctrl+L puts the prompt at the top and keeps line and history. |
| `KeyRuns.CancellingDiscardsTheLine` | src/shell.rs:323-333 | Ctrl+C and lost input discard the line and keep the recorded commands. |
| `KeyRuns.TabCompletes` | src/shell.rs:410-451 | Tab leaves the line that completion decides; a listing keeps it, with the cursor at its end. |
| `History.HistoryRing.RecordLine` | src/shell.rs:128-142 | Recording in the 16-slot ring. |
| `History.HistoryRing.PreviousLine` | src/shell.rs:144-159 | Up on the ring. |
| `History.HistoryRing.NextLine` | src/shell.rs:161-175 | Down on the ring. |
| `Completion.CompleteIsLongestSharedPrefix` | src/shell.rs:410-451 | The line is unchanged exactly when the cursor is not at its end, it has a space, or it starts no name; otherwise Tab extends it to the longest prefix shared by all the names it starts, adds a space for a single one, and lists them exactly when nothing can be added. |
| `Completion.CommonLenIsLongest` | src/shell.rs:421-432 | The loop's length is the longest shared prefix, both ways. |
| `Completion.MatchingKeepsOrder` | src/shell.rs:415-420 | The names considered are those that start with the line, in the order of the table. |
| `Shell.EveryKeyLeavesTheLineOnScreen` | src/shell.rs:298-451 | After every key of every run the prompt is before the anchor, the cells from there on hold exactly the line and then blanks, the cursor is where stepping leads, the anchor is at most seven lines above the last, no assertion fails and no byte is written past the last column. |
| `Shell.EditingSparesTheScreenAbove` | src/shell.rs:298-397 | Unless output or a clear moves the anchor, everything before it is unchanged. |
| `Shell.OutputOnlyAppends` | src/shell.rs:304-333 | Enter, Ctrl+C, a listing and lost input leave the typed line and everything above it on screen, unless the output clears it. |
| `Output.EnterShowsTheOutput` | src/shell.rs:306-322 | Enter leaves the typed line in place and shows each line of the output below it, from the start of a row on and wrapped at the width; the new prompt is on the row after the last. |
| `Output.CancellingShows` | src/shell.rs:323-333 | Ctrl+C puts "^C" right after the typed line and the prompt on the next row. |
| `Output.LosingShows` | src/shell.rs:399-408 | Lost input does the same, with its explanation in between. |
| `Output.ListingShows` | src/shell.rs:433-451 | A listing shows the names on the row below, two spaces after each, and the line again after the new prompt. |
| `Shell.InputLostKeepsInv` | src/shell.rs:399-408 | `input_lost` keeps the console invariant. |
| `Shell.ClearedInv` | src/shell.rs:263-282 | A cleared terminal of any real width takes a prompt and satisfies the invariant. |
| `ShellState.ShellState.constructor` | src/shell.rs:263-275 | `Shell::new` on any terminal of a real width establishes the console invariant. |
| `ShellState.ShellState.PressKey` | src/shell.rs:304-397 | `handle_key` on the real writer ring and history ring is the model's step and keeps the console invariant, so every assertion it reaches holds. |
| `ShellState.ShellState.CompleteLine` | src/shell.rs:410-451 | `complete` with its loops is the model's Tab. |
| `ShellState.ShellState.LoseInput` | src/shell.rs:399-408 | `input_lost` is the model's step and keeps the invariant. |
| `ShellState.ShellState.ResetForResize` | src/shell.rs:278-282 | Needs nothing of the old cursor or picture. |
| `Consoles.NoFaultInAnyRun` | src/task/keyboard.rs:140-196 | Over every run of key, open, close, mouse and overflow events on both terminals: no console assertion fails, no byte is written right of the last column although widths shrink under the cursor, and every open terminal shows its prompt and line within range. |
| `Consoles.NoFaultWithTheCommandTable` | src/shell.rs:13-40 | The same with the command table of the source. |
| `Focus.KeysGoToTheActiveTerminal` | src/task/keyboard.rs:172-181 | A key changes the active terminal only, as `handle_key` does, and nothing if that is closed. |
| `Focus.LossIsLocal` | src/task/keyboard.rs:131-138 | Lost input discards the line of the active terminal only; its commands are kept. |
| `Focus.MouseWritesNothing` | src/desktop.rs:55-124 | The mouse writes to no terminal and opens or closes none. |
| `Focus.ClosingClosesOne` | src/task/keyboard.rs:142-161 | Closing closes that terminal and keeps its commands; the other one, if open, becomes active and restarts with a prompt at the top, an empty line and its commands. |
| `Focus.OpeningOpensOne` | src/task/keyboard.rs:162-171 | Opening opens the first closed terminal and makes it active; a new one has no commands, a reopened one its old ones; the other restarts. |
| `Focus.NewTerminalShowsItsBanner` | src/shell.rs:263-275 | A terminal opened for the first time shows the lines of its banner from the top on and the prompt below them. |
| `Focus.WidthsExactly` | src/desktop.rs:228-236 | Alone a terminal is 72 columns wide, beside another 36; a closed one is kept at 76. |
| `Consoles.WidthShrinksUnderCursor` | src/desktop.rs:228-236 | A run from boot after which opening the second terminal leaves the cursor of the first right of its last column until the clear. |
| `Desktop.EveryLayoutFits` | src/desktop.rs:209-226 | In every reachable desktop each window is at x in [0, 42] and y in [1, 4], each rectangle fits the screen between the bars, a drag names an open window, and some window being open means the active one is. |
| `Desktop.MotionIsConserved` | src/desktop.rs:58-75 | Over every byte stream the sum of the packets' deltas is the scale times the cells moved plus a remainder smaller than the scale. |
| `Desktop.PointerFollowsCells` | src/desktop.rs:72-75 | The pointer moves by the cells counted, clamped to the screen. |
| `Desktop.NoOverflow` | src/desktop.rs:64-114 | No intermediate value overflows `i16`, nor the grip and the corner of a dragged window, computed after the pointer has moved. |
| `Pointing.DeltaExactly` | src/desktop.rs:65-67 | A movement component is the nine-bit two's complement number of its byte and its sign flag. |
| `Pointing.PressExactly` | src/desktop.rs:77-104 | A press asks to close exactly the window whose box is seen under the pointer, asks to open exactly on the icon where no window covers it, grips exactly the rest of a title bar, and activates the window it hits. |
| `Pointing.RequestsComeFromPresses` | src/desktop.rs:76-104 | Only the packet in which the left button goes down asks for anything, and for what is under the pointer after the movement. |
| `Pointing.DraggedWindowFollows` | src/desktop.rs:95-114 | From a press on a title bar until the button is released, over any packets, the window moves exactly as far as the pointer has since the press, as the screen allows; the other window stays. |
| `Pointing.ReleasedWindowsStay` | src/desktop.rs:105-114 | With the button up no window moves and none is activated. |
| `Pointing.OpeningPlacesWindows` | src/desktop.rs:171-186 | A window opened alone starts at (3, 4); two start side by side, so that neither covers the other; opening fails exactly when both are open. |
| `DesktopState.DesktopLock.AcceptByte` | src/desktop.rs:55-124 | `mouse_byte` in place refines the model and keeps the invariant. |
| `DesktopState.DesktopLock.Layout` | src/desktop.rs:209-226 | The filled-in array is the model's layout. |
| `DesktopState.DesktopLock.PressButton` | src/desktop.rs:77-104 | Hit test with the active window first; close box, title bar and icon. |
| `DesktopState.DesktopLock.CloseTerminal` | src/desktop.rs:154-166 | Refines `Desktop.Close`. |
| `DesktopState.DesktopLock.OpenTerminal` | src/desktop.rs:171-186 | Refines `Desktop.Open`. |
| `Frame.ReachableRectFits` | src/vga_buffer.rs:399-404 | Every reachable rectangle keeps every frame index in bounds. |
| `Frame.DrawCell` | src/vga_buffer.rs:228-246 | Writes the text, clipped at the right edge, and nothing else. |
| `Frame.BlitTerminal` | src/vga_buffer.rs:406-417 | Each row of the text area is the log row it stands for. |
| `Frame.RenderWindows` | src/vga_buffer.rs:399-417 | The active window shows its terminal; the other one does where it is not covered. |
| `Frame.HighlightCursor` | src/vga_buffer.rs:418-427 | The cursor's cell, if it is in view, gets inverse colours; nothing else changes. |
| `Frame.FrameCache.Flush` | src/vga_buffer.rs:437-444 | Display memory equals the whole frame, and the cells written are exactly those that differ from the last frame, or all the first time. |
| `Frame.RenderDesktop` | src/vga_buffer.rs:399-444 | After each cached render display memory is the frame: the pointer on top, every text cell and the close box of the active window, the text with its inverse cursor, those of the other window where uncovered, and the background elsewhere. |
| `Screen.RenderSystem` | src/vga_buffer.rs:399-444 | A render in any reachable state whose active view is live puts every cell of the active prompt and of the line being typed in its place on the display, in its colours, but for the pointer and the inverse cursor. |
| `Screen.LineCellInView` | src/vga_buffer.rs:406-410 | The whole prompt and line are on the sixteen rows shown when the view is live. |
| `Screen.CloseBoxIsDrawn` | src/vga_buffer.rs:248-301 | The cells whose click closes a window are those on which its "[x]" is drawn, as far as the window is seen there. |
| `Screen.CursorCellIsNext` | src/vga_buffer.rs:418-427 | The inverse cell stands for the log cell where the next byte goes, or the last one of a full row; it is shown exactly when that row is among the sixteen in view. |
| `Arguments.ParseArguments` | src/shell.rs:187-237 | The loop refines the recursive tokenizer, never overruns its buffers, its spans tile the bytes stored and nothing is stored beyond them. |
| `Arguments.ArgumentsAreTheLiterals` | src/shell.rs:192-233 | The k-th argument is exactly the literal bytes between the k-th word start and the next unquoted blank: all but the delimiting quotes and the escaping backslashes. |
| `Arguments.ErrorsNameTheDefect` | src/shell.rs:187-237 | Each error names a defect that the input has. |
| `Arguments.WrittenParsesBack` | src/shell.rs:187-237 | Arguments written plainly, escaped, in single or in double quotes, each in any style that can express it, joined by spaces, parse back. |
| `Arguments.AcceptedExactly` | src/shell.rs:187-237 | Accepted if and only if at most 256 ASCII bytes, no operator outside quotes and escapes, ending outside both, at most 32 words; then one argument for each word start. |
| `Arguments.EncodeParsesBack` | src/shell.rs:187-237 | Escaping every byte of any ASCII arguments and joining by spaces parses back, or is refused as too many beyond 32. |
| `Arguments.ArgumentsAreAscii` | src/shell.rs:248-252 | Every argument is ASCII, so `get` never panics on it. |
| `Arguments.ArgumentList.Push` | src/shell.rs:239-246 | Appends one argument unless 32 are held. |
| `Arguments.ArgumentList.Get` | src/shell.rs:248-252 | Returns the argument at an index. |
| `Url.ParsesExactlyTheGrammar` | src/net/web.rs:10-32 | `parse` accepts exactly "http://", a host, an optional colon and decimal number that may carry a plus sign, and an optional absolute path, with the bytes and the port range that the code admits, and returns the parts. |
| `Url.ErrorsNameTheFault` | src/net/web.rs:10-32 | The error is about the scheme exactly when that is missing, about the port exactly when no number up to 65535 follows the last colon before the path, and about the URL exactly when neither holds and it does not fit the grammar. |
| `Url.AgreesWithRfcExactly` | src/net/web.rs:10-32 | About the port it agrees with section 3.2.2 of RFC 1945 (`port = *DIGIT`, empty meaning 80) on an input if and only if that is not an otherwise valid URL with a bare colon or a plus sign. |
| `Url.BareColonExample` | src/net/web.rs:16-19 | "http://a:/" is refused although the RFC gives it port 80. |
| `Url.PlusExample` | src/net/web.rs:16-19 | "http://a:+80/" is accepted although no port of the RFC has a sign. |
| `Url.PrintedParsesBack` | src/net/web.rs:10-32 | Printing a valid host, port and path parses back, with the default port and path optional. |
| `Html.RenderHtml` | src/net/web.rs:73-124 | The loop terminates on every body and appends the specified text. |
| `Html.AtMostOneCharacterPerByte` | src/net/web.rs:73-124 | At most one character per byte consumed. |
| `Html.NoBlankRuns` | src/net/web.rs:100-122 | After a newline and without `&nbsp;`: never an empty line, a space after a newline, or two spaces. |
| `Html.TidyExactly` | src/net/web.rs:100-122 | From any last character, no empty line, no space after a newline and no two spaces, if and only if no shown `&nbsp;` is decoded right after a space or a newline. |
| `Html.NbspIsAlwaysKept` | src/net/web.rs:101-113 | `&nbsp;` puts a space after anything. |
| `Html.EscapedTextComesBack` | src/net/web.rs:100-122 | Escaping printable text and rendering it drops exactly the doubled and leading spaces; it gives the text back if and only if there are none. |
| `Html.PageRendersToLines` | src/net/web.rs:91-98 | A page of paragraphs, divisions, list items, headings and titles, with any attributes and in any case, renders to their texts, one line each. |
| `Html.BlocksExactly` | src/net/web.rs:126-145 | The tags that start a line are `br` and the opening and closing tags of those elements, in any case. |
| `Html.BreakEndsTheLine` | src/net/web.rs:91-98 | `br` ends the line and leaves no empty one. |
| `Html.DoubledSpaceIsSqueezed` | src/net/web.rs:114-118 | "a  b" is shown as "a b". |
| `Html.ScriptsAreHiddenExactly` | src/net/web.rs:77-122 | A script or style element leaves nothing behind, whatever stands before and after it, if and only if its code is quiet, which a scan of the code and the closing tag decides. |
| `Html.ScriptsAreHidden` | src/net/web.rs:86-90 | In particular if every `<` in the code is closed and none of its tags ends a script, or there is no `<`. |
| `Html.ComparisonHidesThePage` | src/net/web.rs:77-99 | On the page `<script>a<b</script>x` nothing is shown. |
| `Html.UnclosedEndStillEnds` | src/net/web.rs:77-99 | Code ending in an unclosed `</script ` is quiet although its `<` is not closed. |
| `Html.TagRenders` | src/net/web.rs:77-99 | A tag leaves at most a newline behind, whatever it holds. |
| `WebPage.Render` | src/net/web.rs:35-71 | Refines the specified page. |
| `WebPage.ShownExactly` | src/net/web.rs:35-51 | A response is shown exactly when it starts with "HTTP/" and has an empty line; the error tells which is missing. |
| `WebPage.HtmlExactly` | src/net/web.rs:58-61 | A response is rendered as HTML exactly when some line of its header starts with "content-type: text/html", in any case. |
| `WebPage.PageOfResponse` | src/net/web.rs:35-71 | A response made of a status line, header lines and a body gives the printable part of the status line, a newline and the body's text. |
| `WebPage.PlainTextIsShownVerbatim` | src/net/web.rs:62-69 | Printable text that is not declared as HTML is shown as it is, under its status line. |
| `WebPage.PageIsShowable` | src/net/web.rs:52-71 | Only printable characters, newlines and tabs reach the terminal. |

## Left out

- Bounded task queue: `push` is taken to succeed; one long poll of the shell can be woken many times, and 100 slots are not claimed to suffice.
- Wrap-around of the drop counter after 2^64 dropped scancodes.
- `hlt` inside the network fetch: the halt theorem is about `sleep_if_idle` only.
- `Whole.AsleepIsUpToDate`: console handlers are one step, so an interrupt does not land inside one; what is painted by `run_redraw_worker` is `Screen.RenderSystem`, apart from this system.
- Mouse clicks that land inside a key or desktop event handler: each handler is atomic here.
- The `pc_keyboard` decoder: an opaque state with a reset; keys are inputs.
- What each built-in command prints: arbitrary bytes without a carriage return.
- Register programming, reset and MAC address in `E1000::new`: only the ring setup is modelled. Each copy of a packet buffer is one access.
- `LinkedList.LinkedListAllocator.Allocate`: the heap lies in the lower half of the address space, as `HEAP_START` does, and layouts whose adjusted alignment or size overflows, on which the source panics, are excluded.
- `FixedSizeBlock.FixedSizeBlockAllocator.Allocate`: the fallback heap is an external crate; its contract is assumed.
- What owners write into their blocks: memory holds the allocators' nodes only, and a program that writes to a freed block is outside the model.
- `Url.AgreesWithRfcExactly`: about the port only; the bytes of hosts and paths and the lower-case scheme are those of the code.
- `Arguments.ParseArguments`: inputs are byte strings; a non-ASCII input is refused by the first check either way.
- `Consoles.NoFaultInAnyRun`: the event loop of `run_shell` over both terminals is modelled on values; the handlers it calls have their in-place form in `ShellState` and `DesktopState`.
- `ShellState.ShellState.PressKey`: the line is a value there, as the source copies it; its buffer operations in place are `LineEditor.LineBuffer`.
- Background pattern, bars and labels of `render_desktop_inner`: decoration only; the theorems hold over any background.
- Bump allocator, simple executor, GDT, serial port, PCI, paging, timer and the fetch loop over smoltcp: simpler versions of what is modelled, or hardware access.
