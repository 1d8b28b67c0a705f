# Schwung, modelled and verified

Schwung is real-time glue around the firmware of an Ableton Move: a shim inside the audio
process, a standalone host, a setuid helper that mirrors files to the system partition, and a
manager that talks to browsers. This project models the parts where those pieces meet under
concurrency, tight budgets or crashes, and proves what they keep over whole runs.

| file | component |
|---|---|
| `Machine.dfy` | wrapping 32-bit arithmetic and small helpers |
| `ExtRing.dfy` | lock-free MIDI ring between an overtake DSP and the SPI mailbox, one load or store per step |
| `LatencyDelay.dfy` | per-slot 2048-sample delay ring |
| `IdleGate.dfy` | idle gate and staggered probes of the slot renderer |
| `KnobCoalescer.dfy` | co-run knob detents summed and re-emitted every fourth frame |
| `BulkWire.dfy` | length-prefixed bulk parameter format and its GET/SET handler |
| `LineGeometry.dfy`, `HostDisplay.dfy` | line rasteriser, screen packing and the six-slice display push |
| `LedQueue.dfy` | pending-LED table and its budgeted flush |
| `Heal.dfy` | atomic copy, file comparison and main of the setuid helper, against a failing file system |
| `Upgrade.dfy` | the upgrade's file steps with failures, crashes and boots |
| `WebRing.dfy` | the two shared-memory parameter rings |
| `PresetResend.dfy` | throttled preset re-sends of the notify loop |
| `RevGate.dfy` | rev-gated polling of an overtake tool |
| `TripleBuffer.dfy` | triple-buffered audio hand-over with drift correction |
| `Semver.dfy` | version comparison |

State that the program updates in place is a class whose methods are proved against functions on
values; the results over runs are lemmas about those functions. Where two threads or processes
interleave, or a crash may cut in, the component is a state machine over its steps.

Conventions. C integers are written out where their width matters: cursors and counters wrap
at 2^32, knob accumulators at 2^16, the ready counter at 2^8. Fields described as history in a
comment never influence a step. Foreign code enters as arbitrary functions (plugin `get_param`,
`strconv.Atoi`, the co-run ownership predicate) or as event parameters (audio output, clocks,
system-call outcomes, what a cut extraction leaves behind).

Places where the code does less than its comments or its design suggest, with the exact condition
proved:

- The delay ring is a delay line exactly for 256 <= delay <= 2048; the comment asks for at most
  1792 and names no lower bound (`LatencyDelay.PureDelayIff`).
- A silent probe frame counts twice, so the probe period is 171 frames, not 172; the stagger
  separates slots that fall idle on the same frame, but not slots that fall idle 43 frames apart
  (`IdleGate.ProbeTimes`, `IdleGate.StaggerIff`).
- A knob's carry is taken off the accumulator before a slot is looked for, and the accumulator
  has 16 bits: the books balance throughout a run exactly when every emitting knob finds a free
  slot and no accumulator wraps (`KnobCoalescer.ConservedIff`; runs that lose motion either way
  are `KnobCoalescer.RunThatLoses` and `KnobCoalescer.RunThatWraps`).
- A BULK_GET reply that ends with an empty record on the last byte of its buffer has a NUL where
  that record's newline belongs, and does not parse; any other reply does
  (`BulkWire.ReplyDecodesIff`, `BulkWire.GetExchange`; such a reply is `BulkWire.DamagedOccurs`).
- `contents_differ` calls two different files of one size equal under exactly those read outcomes
  in which some pair of reads fails together and every pair before it moved equally much
  (`Heal.WrongSameIff`).
- `version.txt` is a reliable name of the live shim over every run exactly if the catalog offers
  nothing the device is not already up to date with: an attempt at anything else that is cut short
  in its extraction leaves the old version named and other bytes live
  (`Upgrade.SafeIffNothingElseOffered`), and once the catalog is back at that version the mismatch
  is permanent (`Upgrade.MismatchIsPermanent`).
- A rev-gated poll leaves the client at least as new as its digest, in every run over a history,
  exactly if no two states of the history share a revision (`RevGate.FreshIffDistinct`).
- A push that overlaps a drain of the parameter rings is delivered exactly once, with nothing
  repeated, for exactly the placements that `WebRing.OverlapSafeIff` lists; the others deliver the
  pending entries twice or lose the pushed one.
- Pending LEDs drain only as far as the other MIDI of each tick leaves room: the table is empty
  exactly when the budgets of the ticks add up to what was pending (`LedQueue.EmptiedIff`), and 19
  packets in every tick keep it from draining at all (`LedQueue.NineteenPacketsStall`,
  `LedQueue.BusyLineStalls`).
- MIDI bytes accepted in a tick are all shipped exactly once if and only if fewer than 80 are; a
  transfer from inside the tick leaves its bytes to be shipped again (`LedQueue.ShippedOnceIff`).
- A notify consumer that opens a full ring is stuck for ever (`WebRing.StuckIffOpenedFull`).

## Model

| member | source | states |
|---|---|---|
| `ExtRing.DrainedIsPrefixOfAccepted` | src/schwung_shim.c:1369-1419 | under every interleaving of single loads and stores, and across wraps of both cursors, the packets in the mailbox are a prefix of the accepted ones, whole and in order, and every accepted packet not yet released is intact in the ring |
| `ExtRing.AcceptedIsWhatWasSent` | src/schwung_shim.c:1369-1384 | over every interleaving the accepted packets are, byte for byte and in order, the messages of the finished calls that were not refused, and every finished call is accepted or counted as refused |
| `ExtRing.SendWithRoom` | src/schwung_shim.c:1372-1384 | after any run, a call that finds the producer idle and fewer than 64 packets unreleased ends with its message accepted and in the ring |
| `ExtRing.RefusedIffFull` | src/schwung_shim.c:1372-1378 | a packet is refused exactly when 64 accepted packets were unreleased at the moment tail was loaded |
| `ExtRing.DrainIsPlacement` | src/schwung_shim.c:1392-1419 | when a drain stores tail, the mailbox is the reference placement of the packets pending when head was loaded, and tail moved by the number placed |
| `ExtRing.PlaceFillsEmptySlots` | src/schwung_shim.c:1402-1416 | read in slot order, the slots that were empty hold the placed prefix of the pending packets and then stay empty |
| `ExtRing.PlaceFrame` | src/schwung_shim.c:1402-1416 | occupied mailbox slots are left intact |
| `ExtRing.PlaceCount` | src/schwung_shim.c:1402-1416 | a drain places min(pending, empty slots) packets |
| `ExtRing.RunKeepsInv` | src/schwung_shim.c:1369-1419 | the ring invariant holds in every reachable state of both threads |
| `ExtRing.WriteKeepsRing` | src/schwung_shim.c:1379-1380 | a byte being written never touches a packet the consumer may still read |
| `ExtRing.DrainTerminates` | src/schwung_shim.c:1400-1418 | a drain left to run ends within 122 of its own steps |
| `ExtRing.DrainMovesAllThatFit` | src/schwung_shim.c:1392-1419 | after any run, a drain left to run moves min(pending, empty slots) packets and releases their places |
| `LatencyDelay.DelayLine.Apply` | src/schwung_shim.c:1875-1891 | for any 32-bit delay: the block delivered, the stream absorbed, and the other slots untouched |
| `LatencyDelay.DelayLine.Reset` | src/schwung_shim.c:1865-1870 | every slot's stream starts again from silence |
| `LatencyDelay.PureDelayIff` | src/schwung_shim.c:1872-1891 | it is a delay line for every stream exactly when 256 <= delay <= 2048 |
| `LatencyDelay.RunIsDelayLine` | src/schwung_shim.c:1875-1891 | over any run since reset, output sample j is input sample j - d, silence before the start, also when the write cursor wraps |
| `LatencyDelay.CompensationIsPureDelay` | src/host/shadow_link_audio.h:54 | the delay the mixer asks for is in that range |
| `LatencyDelay.Replay` | src/schwung_shim.c:2091-2099 | block after block, the ring plays what the run-level lemmas speak about |
| `IdleGate.Scheduler.FrameSlot` | src/schwung_shim.c:1607-1707 | the new counter and idle flag of one slot, whether it is rendered and whether it probes |
| `IdleGate.Scheduler.Frame` | src/schwung_shim.c:1602-1707 | every slot takes its step and the burst counter is the number of probing slots |
| `IdleGate.Scheduler.Wake` | src/schwung_shim.c:2521-2530 | an outside wake resets one slot and no other |
| `IdleGate.IsSilent` | src/schwung_shim.c:1689-1697 | the early-exit scan decides silence of the whole block |
| `IdleGate.IdleIffThreshold` | src/schwung_shim.c:1699-1707 | over any history, idle exactly when at least 344 silent frames are counted since the last wake; idle is entered at 344 |
| `IdleGate.IdleAfter344` | src/schwung_shim.c:1699-1707 | from awake it takes exactly 344 silent frames in a row |
| `IdleGate.FadingStartsOver` | src/schwung_shim.c:1607-1628 | a fading frame is rendered and leaves at most itself counted, after any history |
| `IdleGate.InactiveCountsNothing` | src/schwung_shim.c:1602-1606 | an inactive frame can be left out of any history, and is not rendered |
| `IdleGate.AwakeIsRendered` | src/schwung_shim.c:1629-1707 | an awake slot is rendered in every active frame |
| `IdleGate.AnySilentRun` | src/schwung_shim.c:1629-1707 | only the silence of the blocks matters to a silent stretch |
| `IdleGate.CountdownStep` | src/schwung_shim.c:1629-1637 | the countdown to the next probe, restarting from 171 because a silent probe counts twice |
| `IdleGate.ProbeTimes` | src/schwung_shim.c:1629-1637 | exactly the frames c, c + 171, c + 342, ... of a silent idle slot are probes |
| `IdleGate.ProbedInEveryWindow` | src/schwung_shim.c:1621-1637 | any 172 frames of an idle slot contain a probe |
| `IdleGate.CollideIff` | src/schwung_shim.c:1624-1637 | two silent idle slots ever probe on one frame exactly when their countdowns agree modulo 171 |
| `IdleGate.SameFrameNeverCollides` | src/schwung_shim.c:1624-1637 | slots that fell idle together never probe together |
| `IdleGate.StaggerIff` | src/schwung_shim.c:1624-1637 | slots that fell idle `lag` frames apart probe together exactly when 43 (t - s) = lag modulo 171 |
| `IdleGate.StaggerDefeated` | src/schwung_shim.c:1624-1628 | a lag of 43 frames makes slots 0 and 1 probe together |
| `IdleGate.LoudWakesIff` | src/schwung_shim.c:1629-1707 | a slot that starts to sound stays idle exactly until its countdown has run |
| `IdleGate.AnyLoudRun` | src/schwung_shim.c:1704-1707 | only the loudness of the blocks matters to a sounding stretch |
| `KnobCoalescer.Coalescer.FilterFrame` | src/schwung_shim.c:5811-5946 | the filtered frame, and per knob the sum of the withheld detents |
| `KnobCoalescer.Coalescer.FoldIn` | src/schwung_shim.c:5972 | each accumulator takes its detents in 16-bit arithmetic |
| `KnobCoalescer.Coalescer.InjectInto` | src/schwung_shim.c:5981-5995 | an event goes into the first free slot or nowhere |
| `KnobCoalescer.Coalescer.EmitKnob` | src/schwung_shim.c:5974-5996 | the clamped part leaves the accumulator whether or not a slot was free; `KnobCoalescer.EmitShows` says what Move then reads |
| `KnobCoalescer.Coalescer.Emit` | src/schwung_shim.c:5974-5997 | all eight knobs in order |
| `KnobCoalescer.Coalescer.Frame` | src/schwung_shim.c:5811-5998 | accumulators, phase and MIDI_IN after one frame |
| `KnobCoalescer.EmitShows` | src/schwung_shim.c:5974-5997 | Move sees a knob's clamped carry, as a control change of that knob, exactly when a free slot is left after the lower-numbered busy knobs |
| `KnobCoalescer.EmitAddsOnlyMotion` | src/schwung_shim.c:5981-5995 | what emission puts into a frame is control changes 71 to 78 on channel 0 of cable 0 without a time stamp, in slots that were free, and nothing else |
| `KnobCoalescer.DetentValues` | src/schwung_shim.c:5866-5870 | 1 to 63 turn up, 127 down to 65 turn down by as much, and no other value turns |
| `KnobCoalescer.EncodeRoundTrip` | src/schwung_shim.c:5868-5870 | a clamped delta survives its one-byte encoding |
| `KnobCoalescer.FrameBalance` | src/schwung_shim.c:5969-5997 | what one frame does to a knob's books |
| `KnobCoalescer.Conservation` | src/schwung_shim.c:5966-5997 | detents in equal detents shown plus the carry, over every run with room and without 16-bit wrap |
| `KnobCoalescer.ConservedIff` | src/schwung_shim.c:5966-5995 | the books balance at every point of a run exactly when every emitting knob found a slot and no accumulator wrapped |
| `KnobCoalescer.ConservationModulo` | src/schwung_shim.c:5969-5997 | with room they balance modulo 2^16 even if an accumulator wraps |
| `KnobCoalescer.WithheldOrPassed` | src/schwung_shim.c:5855-5946 | a detent is either withheld, leaving its slot free, or passed on uncounted |
| `KnobCoalescer.ControlChangePassesIff` | src/schwung_shim.c:5830-5850 | which control changes of cable 0 reach Move in module overtake, channel and number given |
| `KnobCoalescer.NotePassesIff` | src/schwung_shim.c:5830-5841 | which notes of cable 0 do |
| `KnobCoalescer.RestPasses` | src/schwung_shim.c:5827-5872 | of what is ceded only the knobs are withheld; other cables and metadata events are untouched |
| `KnobCoalescer.WithheldEventsMakeRoom` | src/schwung_shim.c:5862-5995 | a frame that withholds as many events as there are busy knobs has room for all of them |
| `KnobCoalescer.LostWithoutRoom` | src/schwung_shim.c:5979-5995 | after any run with balanced books, a frame without room loses exactly the clamped carry, which is not zero |
| `KnobCoalescer.RunThatLoses` | src/schwung_shim.c:5862-5995 | a run of four frames from the start that loses five detents |
| `KnobCoalescer.RunThatWraps` | src/schwung_shim.c:5969-5979 | seventeen frames that always have room and lose motion to the wrap of the accumulator |
| `KnobCoalescer.QuietFrames` | src/schwung_shim.c:5970-5973 | frames whose number is not a multiple of four carry no synthetic event, across wraps of the phase |
| `KnobCoalescer.CarryDrains` | src/schwung_shim.c:5973-5979 | without new detents, from whatever frame on, the carry shrinks by up to 63 on every fourth frame |
| `KnobCoalescer.CarryReachesZeroIff` | src/schwung_shim.c:5973-5979 | it is gone after m emissions exactly when it was at most 63 m |
| `BulkWire.ScanNumber` | src/schwung_shim.c:3421-3424 | the digit loop reads the number the reference parser reads |
| `BulkWire.BulkNext` | src/schwung_shim.c:3420-3430 | finds a record exactly where the reference parser does |
| `BulkWire.Snprintf` | src/schwung_shim.c:3435 | what a bounded print leaves, including its NUL |
| `BulkWire.BulkPut` | src/schwung_shim.c:3434-3440 | succeeds exactly when the record fits, keeps what came before, and what it leaves |
| `BulkWire.NextOfEncoded` | src/schwung_shim.c:3420-3440 | reading what was put gives the bytes back, whatever they contain and whatever surrounds them |
| `BulkWire.DecodeEncode` | src/schwung_shim.c:3404-3440 | a printed list of byte strings parses to itself |
| `BulkWire.DecDigits` | src/schwung_shim.c:3435 | numbers are decimal ASCII, most significant digit first |
| `BulkWire.WireExample` | src/schwung_shim.c:3404-3417 | the bytes of a concrete message |
| `BulkWire.Channel.CopyRequest` | src/schwung_shim.c:3461-3466 | a GET request is the C string in the value field |
| `BulkWire.Channel.BulkSet` | src/schwung_shim.c:3469-3496 | error, length and the set_param calls of any SET message, well-formed or not |
| `BulkWire.Channel.ApplyPairs` | src/schwung_shim.c:3482-3494 | pairs are applied in order up to the first malformed record |
| `BulkWire.Channel.ApplyPair` | src/schwung_shim.c:3487-3493 | one pair is one call, or none if the key is empty or too long; key and value are told apart by `BulkWire.PlainPairsAreCalled` |
| `BulkWire.Channel.BulkGet` | src/schwung_shim.c:3469-3514 | error, length and reply bytes of any GET message; success exactly when the reply fits |
| `BulkWire.Channel.AnswerOne` | src/schwung_shim.c:3502-3513 | one key answered and appended |
| `BulkWire.Channel.AnswerKey` | src/schwung_shim.c:3503-3510 | the length taken from get_param is clamped, and a miss is empty |
| `BulkWire.Channel.Handle` | src/schwung_shim.c:3443-3515 | dispatch between GET, SET and no active module |
| `BulkWire.ReplyDecodesIff` | src/schwung_shim.c:3434-3440 | a successful reply parses to its answers unless it ends with an empty record on the last byte of the buffer |
| `BulkWire.DamagedOccurs` | src/schwung_shim.c:3434-3440 | a module and a request whose reply does not parse |
| `BulkWire.AnswersAreLookups` | src/schwung_shim.c:3500-3513 | one answer per key, in key order, each the module's value, with no leak from the scratch buffer |
| `BulkWire.GetRequestAnswersKeys` | src/schwung_shim.c:3461-3513 | a well-formed NUL-free request is read whole and answered key by key |
| `BulkWire.SetRequestAppliesPairs` | src/schwung_shim.c:3480-3496 | a well-formed SET message makes the calls of its pairs, in order; what each pair comes to is `BulkWire.PlainPairsAreCalled` and `BulkWire.UnusableKeysAreSkipped` |
| `BulkWire.GetExchange` | src/schwung_shim.c:3456-3514 | from request buffer to parsed reply: when it succeeds, and that the client reads the module's value for each key exactly when the reply does not end in the damaged record |
| `BulkWire.SetExchange` | src/schwung_shim.c:3469-3496 | from request buffer to calls: error, and for plain keys and values call i is exactly (item 2i, item 2i+1), for any number of items |
| `BulkWire.PlainPairsAreCalled` | src/schwung_shim.c:3484-3492 | each pair of NUL-free items with a key of 1 to 63 bytes is one call with the first item as key and the second as value |
| `BulkWire.UnusableKeysAreSkipped` | src/schwung_shim.c:3487-3493 | a pair whose key is empty or has 64 bytes or more makes no call, wherever it stands |
| `LineGeometry.EndPoints` | src/schwung_host.c:275-304 | the line starts and ends at its end points |
| `LineGeometry.Adjacent` | src/schwung_host.c:297-303 | successive pixels are distinct 8-neighbours |
| `LineGeometry.HalfPixel` | src/schwung_host.c:296-303 | every pixel is within half a pixel of the ideal line along the minor axis |
| `LineGeometry.PixelsDistinct` | src/schwung_host.c:297-303 | no pixel repeats, so there are max(abs dx, abs dy) + 1 of them |
| `LineGeometry.Decision` | src/schwung_host.c:300-302 | the error-term tests step the major coordinate always and the minor one exactly when its rounded share does |
| `HostDisplay.Host.DrawLine` | src/schwung_host.c:275-304 | for all end points it terminates and sets exactly the on-screen pixels of the line |
| `HostDisplay.Host.DrawSlanted` | src/schwung_host.c:296-303 | the loop whose only exit is the end point, terminating by pixel count |
| `HostDisplay.PaintedShows` | src/schwung_host.c:197-202 | in the image the panel gets, at (x, y), the painted pixels are lit, or dark for value 0, and all others are as they were |
| `HostDisplay.WalkEnd` | src/schwung_host.c:299 | the end point is hit at the last pixel and no earlier |
| `HostDisplay.Host.SetPixel` | src/schwung_host.c:197-202 | one pixel and the pending flag change, or nothing off the screen |
| `HostDisplay.Host.ClearScreen` | src/schwung_host.c:192-195 | the screen is blank and pending |
| `HostDisplay.Host.PackScreen` | src/schwung_host.c:2051-2064 | the packed buffer is the packed image of the screen |
| `HostDisplay.Host.PushScreen` | src/schwung_host.c:2046-2076 | snapshot at sync 1; at syncs 1 to 6 the slice number is the sync and the bytes are those of the image from 172 (sync - 1) on; blanking at sync 0 |
| `HostDisplay.Host.TickDisplay` | src/schwung_host.c:2465-2479 | the display part of a main-loop tick |
| `HostDisplay.Host.FlushDisplay` | src/schwung_host.c:1784-1803 | the synchronous push and the flags it resets |
| `HostDisplay.UnpackPack` | src/schwung_host.c:2053-2062 | every pixel can be read back from its bit of the packed image |
| `HostDisplay.PackInjective` | src/schwung_host.c:2053-2062 | different screens have different packed images |
| `HostDisplay.NoTearing` | src/schwung_host.c:2046-2076 | whatever is drawn between ticks, a panel that files every slice by its number holds the packed image of one past screen, and the last six slices join to it |
| `HostDisplay.IdleShowsCurrent` | src/schwung_host.c:2465-2479 | with nothing pending or running after a push, that panel holds the current screen |
| `HostDisplay.DrawnWithinTwelveTicks` | src/schwung_host.c:2465-2479 | twelve ticks after a draw, a push with a snapshot not older than it has been shipped |
| `HostDisplay.TwelveIsTight` | src/schwung_host.c:2465-2479 | from the start, a draw, two ticks and another draw are followed by eleven ticks that do not suffice |
| `LedQueue.Queue.QueueLed` | src/schwung_host.c:755-766 | the write replaces what was pending for that LED; other kinds of packet change nothing |
| `LedQueue.WriteIsPendingAt` | src/schwung_host.c:755-766 | a note-on is pending under its note and a control change under its number, on any channel, and nothing else is an LED |
| `LedQueue.SentBytes` | src/schwung_host.c:779-804 | each packet sent is its four bytes, in order |
| `LedQueue.BudgetIsMost` | src/schwung_host.c:769-776 | the budget is the most packets, up to 16, that keep the counter within 76 |
| `LedQueue.Queue.QueueMidiSend` | src/schwung_host.c:713-732 | append, refuse when full, and ship the region as it stands at 80 bytes, without clearing it |
| `LedQueue.Queue.Transfer` | src/schwung_host.c:2380-2393 | the tick's own transfer ships the region and clears it |
| `LedQueue.Queue.FlushNotes` | src/schwung_host.c:779-791 | the note loop of the flush |
| `LedQueue.Queue.FlushCcs` | src/schwung_host.c:792-804 | the CC loop of the flush |
| `LedQueue.Queue.FlushPending` | src/schwung_host.c:768-805 | table, counter and MIDI bytes after a flush; no inline transfer and nothing written from byte 76 on |
| `LedQueue.FlushSendsIff` | src/schwung_host.c:779-804 | exactly the pending LEDs with fewer than `budget` pending ones before them are sent, each with what was pending for it |
| `LedQueue.FlushCounts` | src/schwung_host.c:768-804 | min(budget, pending) packets are sent |
| `LedQueue.WriteThrough` | src/schwung_host.c:755-805 | over any run, every LED's last queued packet is pending or is the last packet sent for it |
| `LedQueue.TableDrains` | src/schwung_host.c:768-805 | without writes, ticks that find the MIDI counter at any values leave max(0, pending - the sum of their budgets) |
| `LedQueue.EmptiedIff` | src/schwung_host.c:768-805 | the table is empty exactly when those budgets add up to what was pending |
| `LedQueue.BusyLineStalls` | src/schwung_host.c:769-772 | ticks that find the counter above 72 leave the table unchanged |
| `LedQueue.NineteenPacketsStall` | src/schwung_host.c:713-772 | 19 packets in a tick stall the flush without any transfer inside the tick |
| `LedQueue.ShippedOnceIff` | src/schwung_host.c:713-732 | for messages of any lengths in one tick: every accepted byte is shipped exactly once if and only if fewer than 80 are accepted |
| `LedQueue.HigherKeysStarve` | src/schwung_host.c:779-804 | after any run, while the 16 lowest notes are rewritten before every tick, no higher LED is sent or taken off the table |
| `Heal.Kernel.CopyAtomic` | src/schwung-heal.c:50-126 | with any failures, short reads and writes, and an end of the process at any call: the destination is exactly as it was or, on success, a complete copy with its final mode; a failed copy leaves no new temporary file unless removing it failed too |
| `Heal.Kernel.GiveUp` | src/schwung-heal.c:87-98 | the temporary file is removed unless the removal fails, and nothing else changes |
| `Heal.Kernel.WriteChunk` | src/schwung-heal.c:83-93 | a chunk is appended whole in spite of short and interrupted writes |
| `Heal.Kernel.CopyContent` | src/schwung-heal.c:80-100 | the temporary file becomes the source's content |
| `Heal.Kernel.Install` | src/schwung-heal.c:102-126 | mode before rename; on failure the temporary file is gone unless its removal failed, and the destination is untouched |
| `Heal.Kernel.ContentsDiffer` | src/schwung-heal.c:133-151 | 0 only for equal files when no call fails; exact when reads are full |
| `Heal.SameMeansEqual` | src/schwung-heal.c:140-147 | however short the reads, equality is reported rightly unless two reads failed together |
| `Heal.ReadErrorsPassForSame` | src/schwung-heal.c:144-145 | two failing reads pass for equality, on a concrete pair of files |
| `Heal.WrongSameIff` | src/schwung-heal.c:128-147 | the read outcomes under which two different files of one size can be called equal, exactly |
| `Heal.FullReadsDecide` | src/schwung-heal.c:140-147 | with full reads the loop decides equality |
| `Heal.SmoothReadsAreSafe` | src/schwung-heal.c:140-147 | without failing reads the unsound exit is never taken |
| `Heal.Kernel.NeedsCopy` | src/schwung-heal.c:157-163 | no copy only if there is no source or the destination has its bytes |
| `Heal.Kernel.Mirror` | src/schwung-heal.c:221-229 | one mirrored file, and nothing written when it was already equal |
| `Heal.Kernel.SelfUpdate` | src/schwung-heal.c:195-215 | the helper itself is old or fully the staged one; the staged file is removed only once the installed helper is a complete copy of it, is gone after a run without failing calls, and is unchanged after a failed copy |
| `Heal.Kernel.MirrorAll` | src/schwung-heal.c:217-264 | both files mirrored if nothing failed; exit status 2 and no reboot exactly if a copy failed, otherwise the reboot if asked for, or 3 if that fails, or 0 |
| `Heal.Kernel.HealMain` | src/schwung-heal.c:165-265 | every managed file is at every moment old or complete, the staged helper included; the exit status and the reboot are decided by whether a copy failed; a run without failing calls ends mirrored and with nothing staged; a run whose reads are full changes nothing when both files are mirrored and nothing is staged; it ends half-way only when the process is gone |
| `Heal.RunTwice` | src/schwung-heal.c:165-265 | two runs in a row: after a first one without failing calls, a second one with full reads changes no file, wherever it ends |
| `Upgrade.StampedMeansLive` | schwung-manager/main.go:2557-2654 | over all runs with failures, crashes and boots, if version.txt names the latest attempt's target, both shim copies are that release's |
| `Upgrade.FixedTargetIsSafe` | schwung-manager/main.go:2501-2654 | while the catalog offers one release, version.txt equal to it implies its shim is live |
| `Upgrade.StampedOnlyWhenLive` | schwung-manager/main.go:2632-2654 | version.txt changes in one step only, and there the live shim is the target's |
| `Upgrade.OneGoodAttemptSuffices` | schwung-manager/main.go:2501-2654 | until then attempts are not short-circuited, and one failure-free attempt reaches the version, whatever post-update.sh leaves on the system partition |
| `Upgrade.CutAttemptHidesMismatch` | schwung-manager/main.go:2501-2578 | an attempt at any release the device is not up to date with, cut short in its extraction, leaves the old version named and whatever bytes it left live after a boot |
| `Upgrade.SafeIffNothingElseOffered` | schwung-manager/main.go:2501-2654 | for any set of offered releases, version.txt implies the live shim over every run exactly if the device is up to date with all of them |
| `Upgrade.MismatchIsPermanent` | schwung-manager/main.go:2501-2504 | with the catalog at the version named, a mismatched shim stays mismatched through every attempt, failure and boot |
| `Upgrade.EntrypointNotGated` | schwung-manager/main.go:2636-2644 | the gate does not cover the entrypoint, which the next boot repairs |
| `WebRing.Shared.SetParam` | schwung-manager/shmwebring.go:61-100 | refusals, or one entry appended and announced |
| `WebRing.Shared.NotifyPush` | src/schwung_shim.c:3379-3395 | dropped when full, otherwise appended with truncated fields |
| `WebRing.Shared.Drain` | schwung-manager/shmwebring.go:149-183 | everything pending, in order, once; an impossible count is reset unread |
| `WebRing.Shared.WriteEntry` | schwung-manager/shmwebring.go:77-93 | the bytes written are read back as the entry, and earlier entries stay |
| `WebRing.FieldsRoundTrip` | schwung-manager/shmwebring.go:186-193 | NUL-free keys and values come back as they went in |
| `WebRing.ExactlyOnce` | schwung-manager/shmwebring.go:61-183 | over every run, delivered followed by pending is what was accepted |
| `WebRing.CounterHidesNothing` | schwung-manager/shmwebring.go:97 | the 8-bit counter distance is exactly the number of pushes since the last effective drain |
| `WebRing.DrainEmpties` | src/schwung_shim.c:3348-3374 | on a ring opened empty, every drain delivers all that was accepted |
| `WebRing.StuckIffOpenedFull` | schwung-manager/shmwebring.go:131-155 | a consumer never gets anything, whatever is pushed, exactly when it opens a full ring |
| `WebRing.OverlapOutcome` | src/schwung_shim.c:3348-3395 | one push overlapping one drain, for every ring with room and every placement of the drain's three steps among the push's four: what is delivered in the end |
| `WebRing.FullOverlapOutcome` | src/schwung_shim.c:3348-3395 | the same for a full ring, where the push is refused unless the drain is over first |
| `WebRing.OverlapSafeIff` | schwung-manager/shmwebring.go:74-180 | exactly which placements keep delivery exactly once |
| `WebRing.OverlapFailures` | src/schwung_shim.c:3354-3364 | concrete rings on which an entry is delivered twice, or never |
| `PresetResend.NotifyLoop.NoteChanges` | schwung-manager/remote_ui.go:1054-1096 | which notifications make a component pending |
| `PresetResend.NotifyLoop.LookAt` | schwung-manager/remote_ui.go:1133-1147 | one slot dispatched or left throttled |
| `PresetResend.NotifyLoop.ProcessTick` | schwung-manager/remote_ui.go:1040-1154 | a tick's new state and re-sends, whatever order the slots come up in |
| `PresetResend.PresetOfJoined` | schwung-manager/remote_ui.go:1076-1081 | the component is what precedes the last colon |
| `PresetResend.NotifiedOf` | schwung-manager/remote_ui.go:1055-1083 | which notifications carry a preset of which component |
| `PresetResend.OnlyPresetsNotify` | schwung-manager/remote_ui.go:1076-1083 | no other key does |
| `PresetResend.MasterFxIsApart` | schwung-manager/remote_ui.go:1055-1065 | slot 0's master FX keys concern no chain component |
| `PresetResend.FlushOneMore` | schwung-manager/remote_ui.go:1131-1154 | slots are independent, so map order does not matter |
| `PresetResend.NothingLostNothingSpurious` | schwung-manager/remote_ui.go:1076-1154 | over every run: a component is pending exactly when, in a tick since which its slot has not been dispatched, some notification carried a preset value other than the one notified for it just before; the value compared with is the last one notified |
| `PresetResend.PendingOnlyWhileThrottled` | schwung-manager/remote_ui.go:1131-1137 | after a tick, what is pending waits for a re-send less than 120 ms ago |
| `PresetResend.DispatchesSpaced` | schwung-manager/remote_ui.go:1018-1022 | two dispatches of a slot are at least 120 ms apart |
| `PresetResend.LeadingEdge` | schwung-manager/remote_ui.go:1131-1139 | an unthrottled change goes out in its own tick |
| `RevGate.ToolClient.HandleRefetch` | schwung-manager/remote_ui.go:791-834 | client fields and message after a poll, for every digest and fetch outcome |
| `RevGate.ToolClient.HandleSubscribe` | schwung-manager/remote_ui.go:749-774 | the next poll must fetch |
| `RevGate.SubscribingForcesFetch` | schwung-manager/remote_ui.go:749-834 | after a subscription the next usable digest fetches and sends what it fetched, whatever its revision; a client that has left is sent nothing |
| `RevGate.ToolClient.HandleUnsubscribe` | schwung-manager/remote_ui.go:776-782 | the client is out of sync and no longer polled |
| `RevGate.PollIsFresh` | schwung-manager/remote_ui.go:791-834 | with distinct revisions, after a good poll the state in the last snapshot message sent is at least as new as the revision read, even with edits between the two reads |
| `RevGate.ShownIsSent` | schwung-manager/remote_ui.go:749-834 | over every run, the state a client is taken to have is the one in the last snapshot message sent to it |
| `RevGate.QuietPollIsCurrent` | schwung-manager/remote_ui.go:791-834 | without such edits the last snapshot message carries the current state |
| `RevGate.LateEditRefetched` | schwung-manager/remote_ui.go:814-822 | after any good poll the next usable digest fetches again exactly if it reads another revision than that poll did |
| `RevGate.StaleMeansRepeated` | schwung-manager/remote_ui.go:814-834 | a gated poll leaves a client stale only at a revision an older state had |
| `RevGate.RepeatedRevHidesEdit` | schwung-manager/remote_ui.go:814-834 | for any two states of any history that share a revision there is a run in which a good poll leaves the client at the older one |
| `RevGate.FreshIffDistinct` | schwung-manager/remote_ui.go:784-834 | every good poll of every run over a history is fresh exactly if its revisions are distinct |
| `RevGate.PollIdempotent` | schwung-manager/remote_ui.go:813-834 | polling again with the same digest sends nothing |
| `RevGate.PlayheadFollows` | schwung-manager/remote_ui.go:823-833 | while playing, every good poll leaves the client at the digest's tick |
| `TripleBuffer.Shared.RenderAudio` | examples/shadow_poc.c:484-527 | at most three blocks, or one after a longer gap, into consecutive buffers |
| `TripleBuffer.CatchUp` | examples/shadow_poc.c:491-506 | a gap of up to three is caught up whole, a longer one by exactly one block, none by nothing |
| `TripleBuffer.Shared.MixBlock` | src/schwung_shim.c:3144-3164 | the shim mixes rendered block n - 2 and never the buffer written next |
| `TripleBuffer.NeverAhead` | examples/shadow_poc.c:491-512 | blocks rendered never exceed blocks played |
| `TripleBuffer.NoneSkippedIff` | examples/shadow_poc.c:503-506 | no block is skipped exactly when no call that sees an advance comes more than three blocks late, over runs of any length; a gap of a whole multiple of 2^32 is seen as none |
| `Semver.IsNewer` | schwung-manager/main.go:705-724 | the loop decides exactly the lexicographic order of the parsed component lists |
| `Semver.JoinSplit` | schwung-manager/main.go:711-712 | splitting into components loses nothing |
| `Semver.ParseJoined` | schwung-manager/main.go:705-712 | a text of dotted parts is read part by part, with or without a leading v |
| `Semver.FirstDifferenceDecides` | schwung-manager/main.go:713-722 | the first component that differs decides, and the larger number is newer |
| `Semver.PrefixIsOlder` | schwung-manager/main.go:723 | a version continued with more components is the older one |
| `Semver.Trichotomy` | schwung-manager/main.go:705-724 | any two versions are newer one way or parse alike, never both ways |
| `Semver.NoUpdateCycle` | schwung-manager/main.go:705-724 | a chain of offered updates never leads back |

## Left out

- KnobCoalescer.Conservation: assumes room and no wrap of the 16-bit accumulator, which `KnobCoalescer.ConservedIff` proves necessary; the wrapping case is covered modulo 2^16 by `KnobCoalescer.ConservationModulo`.
- WebRing.ExactlyOnce: takes push and drain as whole steps, because the code does not protect write_idx against a push and a drain in progress together; `WebRing.OverlapOutcome` and `WebRing.OverlapSafeIff` cover one push overlapping one drain step by step.
- TripleBuffer.Shared.MixBlock: takes calls as whole steps, so a copy overlapping a render is not covered.
- ExtRing.DrainedIsPrefixOfAccepted: loads and stores are sequentially consistent, which the code's full barriers provide; one thread produces and one consumes, and bytes are values because the two sides interleave. A call without a whole message returns at once and is not a step, nor is the reset of the ring on DSP unload, when the producer is gone.
- LedQueue.Queue.QueueLed: requires data1 < 128, the MIDI range, of note-on and CC packets; the code indexes its tables of 128 with any byte.
- HostDisplay.Host.DrawLine: coordinates are unbounded integers, so overflow of the error term on end points near the ends of the int range is not covered; the order of pixels on axis-parallel lines is not stated.
- IdleGate.IdleIffThreshold: the silence counter is unbounded; the C int would overflow after about 72 days of unbroken silence.
- BulkWire.ScanNumber: signed overflow of over-long digit runs, undefined in C, is taken to wrap.
- Heal.Kernel.HealMain: paths are fixed names, so the path-length check and permission checks other than the setuid bit are not modelled; one helper runs at a time, source files do not change under it, and a re-executed helper is this same program.
- Heal.Kernel.CopyAtomic: a file system call that returned is taken to last, so a power cut that undoes one is not covered: the code goes on to the rename when fsync fails.
- Upgrade.FixedTargetIsSafe: attempts are serial, a successful extraction yields the release's files, and post-update.sh leaves the data partition's shim and version.txt alone; a symbolic link it leaves in place of the system copy is taken as a copy. Download, staging of the helper and the reboot leg are not steps.
- RevGate.PollIsFresh: assumes distinct revisions, which `RevGate.FreshIffDistinct` proves necessary; parsing of the digest text is not modelled.
- The FX idle gate, the fade ramp, link audio and all mixing arithmetic of the renderer.
- The filter rules of the modes other than module overtake, and the co-run ownership predicate, which are parameters.
- Image and text drawing, which set pixels without further structure, and the delays of the synchronous flush.
- The master-FX part of the notify loop, which has its own throttle and no value guard.
- The shim's own display slicing, which re-reads shared memory in every phase.
- HTTP, WebSocket, D-Bus, QuickJS, plugin loading and floating-point DSP.
