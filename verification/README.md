# A verified model of the tt-bh-linux host program

`tt-bh-linux` runs on the host of a Blackhole card and gives Linux on the card's L2CPU cores a
disk, a network and a console by polling rings in the card's memory. This project models that
program in Dafny and proves properties of whole runs: every interleaving of the host with the
guest driver, or of host threads with each other, of any length.

`dafny verify dfyconfig.toml` checks everything.

| file | what it models |
|---|---|
| `Words.dfy`, `Bytes.dfy` | machine words and the modular facts behind free-running indices; ranges of bytes |
| `VirtQueue.dfy` | one split virtqueue (Virtio 1.1, section 2.6): the device loop step by step, and a driver that owns its descriptors; the invariant |
| `Engine.dfy` | the device loop over several queues: safety, FIFO refinement, bounded service, callbacks |
| `SlotReuse.dfy` | when the available slot of a request still counted as pending is stored over |
| `Block.dfy` | the block device's callbacks, requests, and the disk as a byte array |
| `BlockRuns.dfy` | the block device on its queue against a concurrent driver: refinement to that disk, and when a request completes |
| `BlkServing.dfy` | what the callbacks of a chain amount to, and a pass of the device with the driver at rest |
| `TwoSegments.dfy` | a posted write served from start to end, and one with two data segments that goes wrong |
| `VirtioBlk.dfy` | the block device as a class that copies bytes in place, and its loop |
| `Net.dfy` | the network device: its `header_processed` flag, and the packets it moves |
| `Setup.dfy` | the `sel_generation` handshake |
| `Interrupts.dfy` | the interrupt register shared by the device threads |
| `Uart.dfy`, `Console.dfy` | the virtual UART rings, and the Ctrl-A escape composed with them |
| `Pll.dfy`, `PllRamp.dfy`, `PllRace.dfy` | the PLL ramp, the C++ and Python programs that run it, and overlapping runs |
| `PllOvershoot.dfy` | when overlapping runs overshoot |
| `Windows.dfy` | the 2 MiB and 4 GiB address windows |

## How to read it

A concurrent part is a transition system: a state, `Enabled`, `Step`, and `IsRun` for a sequence
of states in which each follows from the one before. Theorems start from `IsRun` and speak of
any state of the run. State components that no step reads (a sequence of everything published,
say) are history and are marked so where they are declared (the block driver's promise to leave
in-flight buffers alone is stated with them); the 16-bit and 32-bit indices the
code uses are separate fields that wrap. Sequential code is a class or a method with loops,
proved against functions that the transition system uses too; `VirtioBlkDevice.ServeQueueIsPass`
ties the two for the block device, rings, memory and image alike.

## Assumptions

* The driver's ring size is 16384, which is what the device offers and uses; it never reads a
  negotiated size. Rings start at index 0, with arbitrary contents.
* The driver obeys descriptor ownership: it rewrites only descriptors it has not handed over,
  and the chains it hands over are acyclic, disjoint, non-empty, and headed below 16384.
  Bounds such as "at most one ring of requests outstanding" are proved from this.
* A block request has a header of at least 16 bytes in its first descriptor, any number of data
  descriptors, and a last descriptor for the status byte; its buffers and those of other
  requests in flight do not overlap each other or the rings; transfers stay inside the image.
  While a request is in flight the driver leaves its buffers alone, and is otherwise free to
  write memory at any time.
* Shared loads and stores take effect in program order. A callback with its copy is one step: the
  buffers it touches are the device's own at that time.

## Where the code does not do what one might expect

* Every data descriptor of a block request is transferred at the same image offset
  (console/disk.hpp:119-122). A write is the transfer laid end to end, whatever its data, exactly
  when at most one data segment is non-empty (`Block.FlatWriteIffOneSegment`), and so is a read,
  whatever the disk holds (`Block.FlatReadIffOneSegment`). `BlockRuns.PostedWriteFlat` and
  `BlockRuns.AnsweredReadFlat` say what that means for the requests of a run, and
  `TwoSegments.SecondOverFirst` is a run that leaves the wrong bytes on the disk.
* A queue address posted before the device has looked at FEATURES_OK is answered by the
  feature loop and never stored (console/virtiodevice.hpp:230-243). `Setup.AddressesStored` says
  what every run ends with, and `Setup.SetupRightIff` when that is right: exactly when the driver
  bumps the generation for no queue while the device is about to poll in the feature loop.
  `Setup.QueueLost` is a run with two queues that ends wrong; with one queue the device then waits
  for ever (`Setup.OnlyQueueLost`).
* A network header split over the first two of three or more descriptors gets two header steps
  (console/virtiodevice.hpp:347). `Net.SplitHeaderRunsTwice` is such a chain, and
  `Net.ChainHeader` has the exact condition.
* A transmitted packet is as long as the last descriptor of its chain, wherever it starts, and is
  copied into a buffer of 1514 bytes without a check (console/network.hpp:54, 99-109).
  `Net.SentIsMeantIff`: it stays in bounds and is the packet meant exactly when the descriptors
  before the last describe as many bytes as the header has and the last one at most 1514. With
  header and packet together in one descriptor (`Net.OneDescriptorSent`), a packet of up to 1502
  bytes is sent with the 12 bytes that follow it and a longer one does not fit; a full frame is such
  a chain (`Net.OverrunChains`).
* A single PLL ramp never takes an output above both its start and its target
  (`Pll.NeverOvershoots`), but `L2CPU` objects may be constructed by several threads at once, and a
  stale copy can then be written (console/l2cpu.cpp:129-174). `PllOvershoot.RaceOvershootsIff` has
  the exact condition under which overlapping calls never overshoot; at the code's own target they
  can when the feedback divider starts at 142 or more and the post-divider above 1.
* A driver can collect a used entry before the device has advanced `processed` past it, and may
  then store over the available slot of a request that the device still counts as pending.
  `SlotReuse.PendingSlotStoredIff` has the exact condition, under which the device has read the
  slot for the last time, and `SlotReuse.PendingSlotStored` is such a run.

## Model

| member | source | states |
|---|---|---|
| VirtQueue.OutstandingBound | console/virtiodevice.hpp:55-56 | from ownership alone: disjoint non-empty chains outstanding are at most 16384, and fewer while one more is staged |
| VirtQueue.StageBound | console/virtiodevice.hpp:316-322 | a chain apart from everything in flight always finds an available slot that no outstanding request occupies |
| VirtQueue.UsedSlotFree | console/virtiodevice.hpp:365-369 | the used slot the device is about to fill belongs to no entry the driver has yet to collect |
| VirtQueue.CollectsOldest | console/virtiodevice.hpp:365-371 | whenever the driver sees something to collect, through however stale a used index, the slot it reads answers its oldest outstanding request |
| VirtQueue.NextDesc | console/virtiodevice.hpp:341-359 | one turn of the walk reaches the next descriptor of the chain with the byte total so far, or ends at the last with the full total; the 64-bit count never wraps |
| VirtQueue.NextFlag | console/virtiodevice.hpp:346 | a descriptor has a next one exactly if the lowest bit of its flags is set, whatever the others are |
| Words.RingOf16384 | console/virtiodevice.hpp:56 | slots are indices modulo 16384 |
| VirtQueue.DeviceStepInv | console/virtiodevice.hpp:303-372 | every shared step of the device keeps the invariant tying 16-bit indices, rings, ownership and local variables together |
| VirtQueue.DriverStepInv | console/virtiodevice.hpp:303-372 | every driver move allowed by ownership keeps it too, at every program point of the device |
| Engine.RunInv | console/virtiodevice.hpp:290-381 | the invariant holds of every queue in every state of every run of the round-robin loop |
| Engine.CollectedInOrder | console/virtiodevice.hpp:291-371 | entry j that the driver collects or the device publishes answers request j, with the length sum modulo 2^32; collected <= published <= posted <= collected + 16384 through any number of wraps |
| Engine.PendingTestExact | console/virtiodevice.hpp:311-316 | the wrapped comparison of `processed` and the available index holds exactly when a request is unserved |
| Engine.UnreadAvailSlotKept | console/virtiodevice.hpp:316-322 | no driver move overwrites an available slot the device has yet to read, and the slot holds that request's head |
| Engine.UncollectedUsedSlotKept | console/virtiodevice.hpp:365-371 | at every device step, in the middle of publication too, entries not yet collected stay complete and right |
| Engine.ProcessedLags | console/virtiodevice.hpp:365-371 | in every state of every run the used index equals `processed`, or is one ahead, the latter exactly between the last two stores of a pass |
| Engine.ProgressOnlyWhenServed | console/virtiodevice.hpp:303-372 | in any run a queue's used ring and progress change only while the device is on it; serving one queue changes nothing of another |
| Engine.RequestsTaken | console/virtiodevice.hpp:316 | in any run the device has begun exactly as many requests of a queue as it has found one pending with `queue_has_data` true, and published no more |
| Engine.NoDataNoService | console/virtiodevice.hpp:316-376 | while a queue reports no data, nothing of it is published, no callback is made, and the device only looks at its available index |
| Engine.QueuesTakeTurns | console/virtiodevice.hpp:303-378 | in any run the queues' passes differ by at most one, those before the current queue being one ahead |
| Engine.RunRefinesFifo | console/virtiodevice.hpp:290-381 | every step of every run is, for each queue, no step, an enqueue, or the answering of the oldest request of a plain FIFO |
| Engine.BoundedService | console/virtiodevice.hpp:303-372 | from any moment on, a request with n ahead of it is answered by the end of the (n+1)-th pass over its queue that ends, or the (n+2)-th if the pass under way has already looked and seen nothing |
| Engine.PassEnds | console/virtiodevice.hpp:303-372 | whatever the drivers do, a pass under way is over after at most 16390 steps of the device |
| Engine.PassesHappen | console/virtiodevice.hpp:303-378 | in any run over n queues, 16391 n m steps of the device are at least m passes over every queue |
| Engine.ServedWithinSteps | console/virtiodevice.hpp:303-378 | bounded service in steps of the device: 16391 for each queue and each pass needed, wherever the device is and whatever the drivers do |
| Engine.StartsArePrefix | console/virtiodevice.hpp:346-358 | start callbacks go to a prefix of the chain, data to the rest of the non-final descriptors, complete to the last only |
| Engine.CallbacksFollowChains | console/virtiodevice.hpp:329-359 | over any run the callbacks of a queue are those due for its requests, descriptor by descriptor, none skipped or repeated |
| Engine.PassAlone | console/virtiodevice.hpp:311-371 | undisturbed, a pass takes two steps of the model to look and fetch, one for each descriptor and five to publish, and has the effect of the sequential code on used ring and indices |
| SlotReuse.StagedSlot | console/virtiodevice.hpp:316-371 | of the requests from `processed` on, the slot a staged chain is stored in is that of the oldest, after a whole ring of requests, or of none |
| SlotReuse.PendingSlotStoredIff | console/virtiodevice.hpp:316-371 | the same in every run and for any number of queues; the device is then about to advance `processed`, with the used entry published and collected |
| SlotReuse.PendingSlotStored | console/virtiodevice.hpp:316-371 | a run of 16384 postings in which a head is stored over that of a request still counted as pending |
| Block.DueOf | console/disk.hpp:79-133 | a request's chain yields start on the header, data on each segment in order, complete on the status byte |
| Block.HeaderFields | console/disk.hpp:117-122 | in a request header in memory the type is bytes 0 to 3 and the sector bytes 8 to 15, little-endian |
| Block.DataByHeader | console/disk.hpp:117-126 | a data callback by the bytes of the header: type 0 fills memory from the image, type 1 the image from memory, byte by byte at 512 times the sector, any other type nothing |
| Block.SectorFromByteEight | console/disk.hpp:119-122 | bytes 8 and 9 of 1 and 2 are sector 513, at byte 262656 |
| Block.HeldHeader | console/disk.hpp:117-122 | the header bytes that a driver has written for a request |
| Block.DataStep | console/disk.hpp:87-127 | a data callback takes memory and image one segment further along the meaning of the request, and touches only that segment's buffer |
| Block.CompleteStep | console/disk.hpp:129-133 | the complete callback leaves a request answered, and touches only its status byte |
| Block.DiskHoldsLastWrite | console/disk.hpp:121-123 | each byte of the abstract disk is the one carried by the last write that covered it |
| Block.DiskKeepsUnwritten | console/disk.hpp:118-123 | a byte no write covered is that of the initial image |
| Block.FlatWriteIffOneSegment | console/disk.hpp:117-123 | a write equals the end-to-end transfer of its segments, whatever its data, if and only if at most one segment is non-empty |
| Block.FlatReadIffOneSegment | console/disk.hpp:117-120 | a read gives each segment the bytes it would get end to end, whatever the disk holds, if and only if at most one segment is non-empty |
| BlockRuns.BlkStepPreserves | console/disk.hpp:82-133 | every device step and every driver action, including stores outside in-flight buffers at any moment, keeps concrete memory and image in agreement with the abstract disk |
| BlockRuns.RunsRefineDisk | console/disk.hpp:82-133 | in every state of every run: between requests the image is the abstract disk after the requests served, in available-ring order; each answered and uncollected request has status 0 and, if a read, buffers holding the disk's bytes as of its turn |
| BlockRuns.RequestCompletes | console/virtiodevice.hpp:303-372 | from any moment on, a block request with n ahead of it is answered on the used ring by the end of the (n+1)-th pass that ends, or the (n+2)-th if the pass under way has seen nothing, and, until collected, has status 0 and its read buffers filled from the disk as of its turn, whatever the driver does meanwhile |
| BlockRuns.AnsweredReadFlat | console/disk.hpp:117-120 | in every run the buffers of an answered read hold consecutive disk bytes if and only if the disk looks the same at the places they should come from; with one non-empty segment always |
| BlockRuns.PostedWriteFlat | console/disk.hpp:121-123 | in every run a posted write with at most one non-empty segment puts its payload on the disk end to end |
| TwoSegments.PostAndServe | console/disk.hpp:82-133 | any request that the driver may post first, posted and served, is a run that ends with the image as its segments leave it, one by one |
| TwoSegments.SecondOverFirst | console/disk.hpp:121-123 | a run that writes the bytes 1 and 2 in two segments and ends with 2 and 0 on the disk |
| BlockRuns.OnlyOwnBuffersWritten | console/disk.hpp:117-132 | a guest byte changed by the device is in a read buffer or the status byte of the request being served |
| BlockRuns.TransfersInBounds | console/disk.hpp:117-123 | every copy made in any run lies within guest memory and within the mapped file |
| VirtioBlkDevice.VirtioBlk.constructor | console/disk.hpp:45-80 | feature words in any case; file size and sector count if the file can be examined, every byte in some sector and no sector without one; device id, capacity and a header size of 16 only if it is mapped, and 0 otherwise |
| Bytes.CopyBytes | console/disk.hpp:119-122 | the copy loop leaves the target equal to its old contents overlaid with the source range |
| VirtioBlkDevice.VirtioBlk.ProcessQueueStart | console/disk.hpp:82-85 | new state of memory, image and header pointer after the start callback |
| VirtioBlkDevice.VirtioBlk.ProcessQueueData | console/disk.hpp:87-127 | in-place copies give the state the callback means, for reads, writes and unknown types |
| VirtioBlkDevice.VirtioBlk.ProcessQueueComplete | console/disk.hpp:129-133 | in place, only the status byte becomes 0 |
| VirtioBlkDevice.VirtioBlk.HandleDescriptor | console/virtiodevice.hpp:342-358 | flag and byte count select the callback, which is made once |
| VirtioBlkDevice.VirtioBlk.WalkChain | console/virtiodevice.hpp:329-359 | the walk over any acyclic chain whose callbacks find their memory terminates, returns the sum of all lengths, and makes exactly the callbacks due, in order, with their effect on memory and image |
| BlkServing.CallbacksServe | console/disk.hpp:82-133 | the callbacks of a well-placed block request find their memory and between them serve it: image written, read buffers filled, status 0, nothing else touched |
| VirtioBlkDevice.VirtioBlk.PublishUsed | console/virtiodevice.hpp:365-369 | exactly one used entry changes and the index advances by one modulo 2^16 |
| VirtioBlkDevice.VirtioBlk.ServeQueue | console/virtiodevice.hpp:311-376 | one pass either changes nothing, or makes the callbacks of the pending chain, whatever it spells, publishes it and asks for an interrupt |
| VirtioBlkDevice.VirtioBlk.DeviceLoop | console/virtiodevice.hpp:290-381 | with n requests outstanding, p passes serve the first min(n, p) in order: image, read buffers, used entries and both indices are stated |
| VirtioBlkDevice.ServeQueueIsPass | console/virtiodevice.hpp:311-371 | from any reachable state between passes `ServeQueue` may be called, and used ring, indices, memory and image after it are those after the concurrent model's steps when undisturbed; with nothing pending both change nothing |
| Net.ChainHeader | console/network.hpp:79-116 | after any chain the flag is clear, and the header step ran once if and only if the chain has at most two descriptors or its first covers the header |
| Net.VirtioNet.constructor | console/network.hpp:57-77 | two queues, 12-byte headers, a 1514-byte buffer, device id 1, the two feature words, flag clear |
| Net.SplitHeaderRunsTwice | console/network.hpp:79-116 | a concrete chain on which it runs twice |
| Net.HeaderOncePerChain | console/network.hpp:79-116 | over any run of any number of queues the flag is set exactly while a chain is past its first descriptor; header steps are at least the chains begun, and equal if and only if all chains begun, the current one as far as it has got, have a one-header shape |
| Net.SentIsMeantIff | console/network.hpp:94-116 | the copy stays in its buffer and the packet sent is what follows the header in its chain if and only if the descriptors before the last describe exactly as many bytes as the header has and the last at most 1514 |
| Net.OneDescriptorSent | console/network.hpp:94-116 | header and packet in one descriptor: up to 1514 bytes in all the packet is sent with the 12 bytes that follow, beyond that the copy overruns |
| Net.OverrunChains | console/network.hpp:107-109 | a full frame with its header in one descriptor, and a 2000-byte second descriptor, overrun the buffer |
| Net.VirtioNet.ProcessQueueStart | console/network.hpp:79-88 | the flag changes as `Net.HandleNet` says; the four header fields (six bytes) of a receive buffer are set, its other bytes and all transmit buffers left alone |
| Net.VirtioNet.ProcessQueueData | console/network.hpp:90-92 | does nothing, as `Net.HandleNet` says |
| Net.VirtioNet.ProcessQueueComplete | console/network.hpp:94-116 | the flag changes as `Net.HandleNet` says; a received packet is stored behind the header, or at the descriptor if the header step has run; a packet of the descriptor's length is sent from there, unless it does not fit the buffer, which is reported |
| Setup.FeaturesAnsweredOnce | console/virtiodevice.hpp:230-243 | answers alternate with bumps, the device never answers its own, and the driver reads back the words its selectors named, request by request |
| Setup.AnsweredWithinFour | console/virtiodevice.hpp:230-277 | a driver that waits is answered within four steps of the device, in either loop; its next look ends the wait, and feature words read are those its selectors named |
| Setup.FeatureLoopEnds | console/virtiodevice.hpp:230-243 | once FEATURES_OK is set the device is out of the feature loop within four steps |
| Setup.QueueLoopEnds | console/virtiodevice.hpp:258-277 | the device is past the queue loop exactly when all queues have been answered and the last of them there |
| Setup.JoinHalves | console/virtiodevice.hpp:265-267 | the high half of an address is its upper 32 bits |
| Setup.AddressesStored | console/virtiodevice.hpp:258-277 | on leaving the queue loop each queue has the addresses posted for it, except the first `lost`, answered in the feature loop, which have none and are never all |
| Setup.SetupRightIff | console/virtiodevice.hpp:230-277 | all addresses are right if and only if the driver made no queue bump while the device was about to poll in the feature loop |
| Setup.OnlyQueueLost | console/virtiodevice.hpp:230-277 | with one queue, an early bump means that the device never leaves the queue loop |
| Setup.PatientLosesNothing | console/virtiodevice.hpp:253-277 | a driver that posts queues only once the device is in the queue loop never loses one |
| Setup.PatientDriverSetsUpAll | console/virtiodevice.hpp:258-277 | for that driver, leaving the loop means every queue is set up |
| Setup.QueueLost | console/virtiodevice.hpp:253-277 | from any initial state with two queues, a run that ends with the first queue's addresses missing |
| Interrupts.PulsesFollowPublications | console/virtiodevice.hpp:200-217 | for any number of threads the register is 0 or names exactly one interrupt, the lock holder's; stores alternate between some device's bit and 0, and finished pulses equal publications but for at most one in progress |
| Interrupts.FiveStepsAPulse | console/virtiodevice.hpp:200-217 | five steps of a thread are one publication and one pulse, neither more nor less |
| Interrupts.RaisesOwnBit | console/virtiodevice.hpp:213-215 | raising stores the thread's own bit, lowering 0, and no other step stores anything |
| Interrupts.BitDoubles | console/virtiodevice.hpp:213 | interrupt 5 is bit 0, and each further one the next bit |
| Interrupts.BitNames | console/virtiodevice.hpp:213 | different interrupts have different bits |
| Interrupts.ProgramBits | console/tt-bh-linux.cpp:112-115 | the bits of the disk, network and cloud-init disk threads |
| Uart.NothingLostOrRepeated | console/console.hpp:42-76 | in every interleaving of single loads and stores, pushed equals popped followed by what the ring holds, at most 4095 characters |
| Uart.UnreadSlotKept | console/console.hpp:59-66 | the producer never stores into a slot not yet read, whatever stale index it looked at |
| Uart.FourStepsAPush | console/console.hpp:59-66 | while the ring has room, whatever the consumer does, four steps of the producer push one character |
| Uart.PushedWithinFour | console/console.hpp:59-66 | a character is in the ring after four steps of the producer, if the ring has room all the while |
| Uart.FourStepsAPop | console/console.hpp:68-76 | while the ring holds a character, four steps of the consumer take one, less two for each time it looks again |
| Uart.PoppedWithinFive | console/console.hpp:68-76 | so five such steps take at least one |
| Uart.RingOf4096 | console/console.hpp:31 | places are indices modulo 4096 |
| Uart.Queues.CanPush | console/console.hpp:42-49 | there is room exactly while fewer than 4095 characters are held |
| Uart.Queues.CanPop | console/console.hpp:51-57 | there is a character exactly when the ring is not empty |
| Uart.Queues.PushChar | console/console.hpp:59-66 | for any infinite schedule of tail values that makes room at some time: returns at the first poll that finds room, with the character appended to what the ring then holds |
| Uart.Queues.PopChar | console/console.hpp:68-76 | for any infinite schedule of head values that brings a character at some time: returns at the first poll that finds one, with the oldest character removed |
| Console.MachineIsFilter | console/console.hpp:174-184 | the byte-by-byte flag machine computes the recursive escape filter, and ends on exactly the streams with Ctrl-A x |
| Console.FilterMonotone | console/console.hpp:174-184 | reading more input only extends what was forwarded |
| Console.CtrlANeverForwarded | console/console.hpp:174-184 | byte 1 is in no filtered stream |
| Console.EscapePairVanishes | console/console.hpp:174-184 | Ctrl-A and any next byte but x leave no trace in what is forwarded |
| Console.NothingAfterQuit | console/console.hpp:174-184 | after Ctrl-A x nothing more is forwarded |
| Console.PlainForwarded | console/console.hpp:174-184 | input without byte 1 is forwarded as it is |
| Console.EscapeByBytes | console/console.hpp:174-184 | bytes 1 and 120 end the session with nothing more forwarded; 1 and any other byte are swallowed and the rest is filtered |
| Console.ForwardInput | console/console.hpp:155-186 | the loop with `ctrl_a_pressed` outputs the filter of its input and quits exactly when the stream says so, having read no further |
| Console.GuestReceivesFiltered | console/console.hpp:155-186 | composed with the ring, in every interleaving, received plus held plus in hand is the filter of what was typed, and received is a prefix of the filter of the whole input |
| Console.StopsAtQuit | console/console.hpp:155-186 | in every interleaving the host reads no further than the byte that ends the session |
| Console.EverythingArrives | console/console.hpp:155-186 | if host and guest keep stepping, the guest has all of the filtered input after at most three rounds for each byte typed and one more |
| Pll.DecodeWords | console/l2cpu.cpp:113-127 | register words decode to the fields they were made from |
| Pll.WordLayout | console/l2cpu.cpp:113-127 | which byte of which register each divider is; the feedback divider is bits 16 to 31 |
| Pll.NextMovesOne | console/l2cpu.cpp:142-174 | each write moves exactly one divider by exactly one towards its target, without wrap-around, and leaves the two fixed bytes alone |
| Pll.RampLength | clock.py:26-71 | a ramp makes as many writes as the sum of the dividers' distances, and ends at the target |
| Pll.RampWrites | clock.py:26-71 | the k-th word written is that of the registers after k + 1 moves |
| Pll.NeverOvershoots | console/l2cpu.cpp:142-174 | after every write of a single call, for any positive monotone divisor function, each output's ratio is at most the larger of its initial and final ones |
| PllRamp.SetFrequency | console/l2cpu.cpp:104-175 | from any register contents the C++ loops issue exactly the ramp's words and end at the target with the other bytes kept |
| PllRamp.RaisePostdivs | console/l2cpu.cpp:142-152 | first loop nest: afterwards no post-divider is below its target |
| PllRamp.AdjustFbdiv | console/l2cpu.cpp:154-162 | second loop: only the feedback divider changes, to its target |
| PllRamp.LowerPostdivs | console/l2cpu.cpp:164-174 | third loop nest: all dividers at their targets |
| PllRamp.Listed | clock.py:62-63 | the comprehension yields exactly the fields to move, in ascending order |
| PllRamp.StepUp | clock.py:26-31 | `step` raises one field to its target by ramp moves |
| PllRamp.StepDown | clock.py:26-31 | `step` lowers one field to its target by ramp moves |
| PllRamp.StepFbdiv | clock.py:40-45 | `step_fbdiv` moves only the feedback divider, by ramp moves |
| PllRamp.SetL2cpuPll | clock.py:48-71 | from any register contents the Python program issues exactly the ramp's words |
| PllRamp.SetL2cpuMhz | clock.py:17-71 | the solutions for 15, 200 and 1750 MHz by their numbers; any other frequency fails and writes nothing |
| PllRamp.BothPrograms | clock.py:48-71 | from equal registers the two programs at 1750 MHz write the same words in the same order |
| PllRace.RaceConverges | console/l2cpu.cpp:129-174 | any number of overlapping calls, each from its own stale copies: once all have finished both registers are at the target, and the fixed bytes never change |
| PllRace.RaceTerminates | console/l2cpu.cpp:129-174 | n overlapping calls are over after at most 66558 n register accesses |
| PllOvershoot.SafeNeverOvershoots | console/l2cpu.cpp:129-174 | from a safe start no number of overlapping calls, however stale their copies, takes the output above both start and target |
| PllOvershoot.UnsafeOvershoots | console/l2cpu.cpp:129-174 | from any other start, a race of two calls and a monotone divisor function with which it does |
| PllOvershoot.RaceOvershootsIff | console/l2cpu.cpp:129-174 | races from given registers never overshoot at an output, for any monotone divisor function, if and only if its two dividers move in opposite directions or not at all, or the feedback divider falls by one only, or the post-divider rises by one only and before all others |
| PllOvershoot.AtDefaultTarget | console/l2cpu.cpp:109-111 | at 1750 MHz with a non-zero post-divider that is: the feedback divider starts at 141 or less, or the post-divider at 1 |
| Windows.BaseOf | console/tlb.h:63-67 | base plus offset is the address, and the base is aligned |
| Windows.SplitBySize | console/tlb.h:60-64 | offset and base are remainder and multiple of 2097152 or 4294967296 |
| Windows.MasksSplit2M | console/tlb.h:43-64 | on 64-bit words the 2 MiB masks compute remainder and aligned base |
| Windows.MasksSplit4G | console/tlb.h:43-64 | the same for 4 GiB |
| Windows.BaseIsUnique | console/tlb.h:60-64 | no other aligned window contains the address |
| Windows.StructureInWindow | console/tlb.h:89-92 | a structure is wholly reachable from `get_window` if and only if offset plus length fits the window |
| Windows.TlbWindow.constructor | console/tlb.h:59-70 | base and offset split the address |
| Windows.TlbWindow.Read32 | console/tlb.h:81-87 | succeeds exactly for aligned words inside the window, with the little-endian word there |
| Windows.TlbWindow.Write32 | console/tlb.h:73-79 | stores exactly the four bytes of the word, or fails and stores nothing |
| Windows.L2CPU.constructor | console/l2cpu.cpp:46-62 | the two windows are based at the two halves of the 8 GiB region |
| Windows.MemoryMap | console/l2cpu.cpp:29-44 | start and size of each of the four memories, all inside the 8 GiB region |
| Windows.HalfByHalf | console/l2cpu.cpp:58-62 | the lower 4 GiB of the flat view show the first window, the upper the second |
| Windows.L2CPU.Read32 | console/l2cpu.cpp:86-89 | through a fresh 2 MiB window the assertions pass exactly for 4-aligned addresses, and the word at that address is read |
| Windows.L2CPU.Write32 | console/l2cpu.cpp:81-84 | stores at exactly that address under the same condition |
| Windows.FlatView | console/l2cpu.cpp:99-102 | each address of an L2CPU's memory is the one behind its pointer in the flat view, on both sides of the seam |
| Windows.L2CPU.ReadAgrees | console/l2cpu.cpp:86-102 | an aligned word reads the same through a fresh 2 MiB window and in the flat view |
| Windows.L2CPU.WriteThenRead | console/l2cpu.cpp:81-102 | a word written reads back through both, and no other byte changed |

## Left out

- VirtioBlkDevice.VirtioBlk.DeviceLoop: the driver is at rest while the sequential loop runs, for any number of passes; the concurrent driver is in `BlockRuns`, which models the loop on values, step by step.
- Engine.PassAlone: counts steps of the model; a step of the chain walk stands for the loads of one descriptor's fields, which the device owns at that time, and the callback.
- Uart.Queues.PushChar: a guest that never makes room, for which the code waits for ever, is excluded; likewise in `Uart.Queues.PopChar` one that never sends. Concurrent access is in the transition system of `Uart`.
- Setup.AddressesStored: `device_setup` is modelled on values, as the steps of two concurrent parties; loads of registers that only one side touches at that point are one step, and the stores of 0 to `queue_ready` and the final wait for DRIVER_OK are not modelled.
- Interrupts.PulsesFollowPublications: modelled on values, since the point is the interleaving; `interrupt_status`, which each device only ever sets, and the inactive `ack_interrupt` are not modelled.
- Net.VirtioNet.ProcessQueueComplete: libslirp is not part of this model; what it receives is a parameter, and what it is given to send is recorded. A copy past the end of the buffer is reported and ends the account; what the program does after it is undefined.
- The used-ring length is proved to be the sum the code computes; that it should be the number of bytes the device wrote is not claimed.
- The exit flag and the magic-value check that end the loops.
- The coordinates of an L2CPU's tile: each has a memory of its own in the model.
- Weak memory: fences are taken as program order.
- A partial last sector: accesses past the end of the file are assumed not to happen.
- Chains with a cycle, heads of 16384 or more, and requests whose header spans descriptors.
- Mapping, ioctls, terminal modes, sleeps, thread creation, argument parsing, and the search for the UART in memory: operating-system plumbing.
- boot.py, device trees, build files and images.
