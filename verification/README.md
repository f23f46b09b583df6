# Verified model of the virtual-microphone transport and its neighbours

This project models the concurrent and stateful core of the repository in Dafny and proves what it promises.
`dafny verify dfyconfig.toml` checks everything. Every lemma carries `{:induction false}`, so its body is its whole
proof.

**The shared-memory transport** (`RingMachine`, `RingSafety`, `RingTheorems`, `RingRegion`, `RingWitness`,
`SessionReset`). A lock-free single-producer, single-consumer PCM ring with global cursors and one seqlock stamp per
slot. `RingMachine` is a step machine: every interlocked load, store or addition and every payload byte is one step,
endpoints interleave freely (sequentially consistent memory), and the frames begun and the finished consume calls are
kept as history.
`RingSafety` proves one invariant over cursors, stamps, payload and both program counters; `RingTheorems` draws the
run-level conclusions. `RingRegion` is the same code as it is written: a class with the region's words and byte
arrays, updated in place, in which the other endpoint may take any number of machine steps between two accesses
(`ProducerInterference`, `ConsumerInterference`). Each method is proved to be the machine's steps, so every theorem
about the machine holds of it. `RingWitness` is one concrete run for what the theorems do not promise, and
`SessionReset` is the reset of the cursor block as a status reader sees it.

**The driver around it.** `Protocol` and `RegionLayout` are the header, stamp, window and layout arithmetic, each
against an independent reference (the Rust planner, unbounded integers). `TransportBridge` is the connect gate and the
realtime consume entry. `StreamContract` and `WaveRtStream` are the capture stream: a timer tick that pulls a frame
into a cyclic buffer while control calls run, with ticks and transport changes allowed between any two lock sections.
`ControlDevice` interleaves any number of control threads (mutex) and realtime threads (spin lock) step by step, and
shows who is admitted, what every admitted and every refused call leaves behind, and that connecting, disconnecting
and a consume call are each atomic, as `TransportBridge` takes them.

**The capture pipeline.** `Reframing` states what the packet reframer means on a stream of audio frames and proves
it; `Reframer` is the queue of segments updated in place, proved equal to it. `StreamControl` is the recovery state
machine. `CaptureSpec` gives the assembler, the pump's bounded drain and the recovering runtime as functions,
`CaptureTheorems` the theorems over whole lives and runs, and `Capture` the objects, proved equal to the functions.

**The smaller parts.** `DesktopLink` is the single-use exchange as interleaved read / check / conditional-update
requests over either record store; `DesktopLinkService` is the service and the in-memory store as objects, proved to
take the machine's steps while other requests run. `EnginePeriod` is engine-period selection. `Words`, `Wrappers` and
`Arithmetic` are shared vocabulary.

Results worth knowing:

- A zero-initialised stamp equals the stable stamp of frame 0, and stamps are not monotone; tear-freedom rests on the
  cursor order (`RingTheorems.NoTornFrame`).
- `underruns` wraps at 2^64, so it equals the number of underruns if and only if there were fewer than that
  (`RingTheorems.Conservation`).
- After an unstable slot, the drop is reported by the first call that *reads* the producer cursor after the overtaking
  frame was published (`RingTheorems.FirstSightDrops`). The first call to *start* after the publication need not report
  one (`RingWitness.LateCallReportsNoDrop`): it drops if and only if the cursor it reads is more than a capacity past
  the consumer, and it can only fail to when an earlier call had already seen the frame and dropped
  (`RingTheorems.LateStartDrops`, `RingTheorems.LateStartDropsIffUnseen`).
- A status reader's snapshot may pair two cursors that never stood in the ring together
  (`RingWitness.SnapshotPairNeverCoexisted`); they did if and only if the consumer reached its own before the producer
  passed the other (`RingTheorems.PairCoexists`). It never overstates the backlog.
- Beside a reset, a status reader's stable snapshot is never a mixture of two sessions if and only if the generation
  changes or at most one field has to be cleared (`SessionReset.ResetNeverMixes`). The other case exists only at the
  helper's interface: the driver resets a section it has just zeroed and not yet published.
- When the linear position can no longer advance, a tick still overwrites one tick's worth of the cyclic buffer; the
  window theorem is short of exactly that (`WaveRtStream.EndpointContent`, field `slack`).
- `FreeAudioBuffer` with a memory descriptor that is not the stream's stops the scheduler and leaves the state RUN.
- The reframer ignores an empty packet even when it carries the discontinuity flag. After a position overflow every
  well-formed non-empty packet overflows again, until a discontinuous one; empty and malformed packets answer as ever
  (`Reframing.OverflowPersists`).
- A drain that fails, in assembly or on a read, loses every frame it has assembled, those of earlier packets included,
  and their sequence numbers. Numbers are never reused; they have gaps if and only if some failing drain had assembled
  a frame (`CaptureTheorems.GapsAreExact`, `CaptureTheorems.ReadErrorLosesFrame`).
- The in-memory and SQL link stores answer every run over a set of requests alike if and only if no request in it is
  accepted by the service with an identifier that the SQL store or its text columns refuse
  (`DesktopLink.StoresAgreeOnRequests`). Of what the controller passes on this is only an issue whose device id holds a
  U+0000 (`DesktopLink.ControllerRequestsAgree`, `DesktopLink.NulDeviceDiverges`); the run with an untrimmed device id
  (`DesktopLink.UntrimmedDeviceDiverges`) needs a caller that bypasses the controller.

## Model

| member | source | states |
|---|---|---|
| Protocol.StampsIdentify | native/windows-virtual-mic/include/vsn_virtual_mic_protocol.h:68-86 | over encodable sequences a stamp determines its sequence and phase, and no two sequences or phases share one |
| Protocol.ValidatorsAgree | native/windows-audio/src/virtual_mic_protocol.rs:71-132 | the Rust and C++ header validators accept exactly the same headers |
| Protocol.HeaderFields | native/windows-virtual-mic/include/vsn_virtual_mic_protocol.h:117-167 | a header is accepted iff each fixed field has its value, the duration is 1 to 100 whole milliseconds, and every channel has a whole number of samples in a frame that the frame holds |
| Protocol.ValidHeaderFrameSize | native/windows-virtual-mic/include/vsn_virtual_mic_protocol.h:117-167 | an accepted header's frame size is exactly rate times channels times duration |
| Protocol.PlannersAgree | native/windows-audio/src/virtual_mic_protocol.rs:181-222 | on all cursors both planners accept together, plan the same window and reject for the same reason |
| Protocol.WindowIsNewest | native/windows-virtual-mic/include/vsn_virtual_mic_protocol.h:169-208 | the window is exactly the newest min(backlog, capacity) unread sequences, the rest is dropped, and each has its own slot |
| Protocol.SameSlotIsLapApart | native/windows-virtual-mic/include/vsn_virtual_mic_slot_sync.h:17-19 | two sequences in one slot are at least one lap apart |
| RegionLayout.PowerOfTwoTest | native/windows-virtual-mic/include/vsn_virtual_mic_region_layout.h:42-44 | the bit test accepts exactly the powers of two |
| RegionLayout.AndClearsLowBits | native/windows-virtual-mic/include/vsn_virtual_mic_region_layout.h:51 | masking with the complement of 2^k - 1 rounds down to a multiple of 2^k |
| RegionLayout.AlignUpIsLeast | native/windows-virtual-mic/include/vsn_virtual_mic_region_layout.h:38-53 | alignment succeeds iff it is a power of two and the least aligned value fits, and returns that value |
| RegionLayout.LayoutExact | native/windows-virtual-mic/include/vsn_virtual_mic_region_layout.h:55-122 | planning succeeds iff the unbounded-integer layout fits in 64 bits, and equals it |
| RegionLayout.LayoutAreasDisjoint | native/windows-virtual-mic/include/vsn_virtual_mic_region_layout.h:110-120 | areas are aligned, in order, disjoint and in bounds; so is every slot's stamp and frame |
| RingMachine.OffsetIsProduct | native/windows-virtual-mic/include/vsn_virtual_mic_ring_consumer.h:178 | a slot's byte offset is its index times the frame size |
| RingSafety.InitEstablishesInv | native/windows-virtual-mic/include/vsn_virtual_mic_cursor_sync.h:122-141 | a fresh session satisfies the joint invariant |
| RingSafety.ProducerStepKeepsInv | native/windows-virtual-mic/include/vsn_virtual_mic_slot_sync.h:21-64 | every step of begin, payload, commit and publish keeps the invariant, wherever the consumer is |
| RingSafety.ConsumerStepKeepsInv | native/windows-virtual-mic/include/vsn_virtual_mic_ring_consumer.h:120-203 | every step of a consume call keeps the invariant, wherever the producer is |
| RingSafety.RunKeepsInv | native/windows-virtual-mic/include/vsn_virtual_mic_ring_consumer.h:66-75 | the invariant holds in every state of every interleaving |
| RingTheorems.HistoryGrows | native/windows-virtual-mic/include/vsn_virtual_mic_cursor_sync.h:153-206 | cursors and counters never go back and history is never rewritten |
| RingTheorems.NoTornFrame | native/windows-virtual-mic/include/vsn_virtual_mic_ring_consumer.h:161-202 | a kOk result for sequence s holds exactly the bytes written for frame s |
| RingTheorems.OnlyThreeOutcomes | native/windows-virtual-mic/include/vsn_virtual_mic_ring_consumer.h:120-197 | with a conforming producer only kOk, kUnderrun and kSlotUnstable occur, silence is all zero, and the producer is never refused |
| RingTheorems.Conservation | native/windows-virtual-mic/include/vsn_virtual_mic_ring_consumer.h:137-202 | between calls consumer cursor = deliveries + drops, drops = reported drops, underruns counted modulo 2^64 |
| RingTheorems.DeliveriesInOrder | native/windows-virtual-mic/include/vsn_virtual_mic_ring_consumer.h:161-202 | delivered sequences strictly increase and each gap equals the drops reported in it |
| RingTheorems.DropsAreExact | native/windows-virtual-mic/include/vsn_virtual_mic_ring_consumer.h:128-159 | a call drops exactly what had left the ring when it looked, and underruns iff nothing was unread then |
| RingTheorems.CallAccounts | native/windows-virtual-mic/include/vsn_virtual_mic_ring_consumer.h:128-202 | between two idle states with one call in between, the cursor moves by the drops the call counted and the frame it delivered |
| RingTheorems.CallDelivers | native/windows-virtual-mic/include/vsn_virtual_mic_ring_consumer.h:128-202 | a call is silent only if nothing was unread at its start or the producer has begun the frame a lap above; if the producer begins nothing and something is unread it delivers the oldest unread frame still in the ring |
| RingTheorems.UnstableMeansOvertaken | native/windows-virtual-mic/include/vsn_virtual_mic_ring_consumer.h:169-189 | kSlotUnstable occurs only if the producer has begun the frame one lap ahead |
| RingTheorems.FirstSightDrops | native/windows-virtual-mic/include/vsn_virtual_mic_ring_consumer.h:120-148 | the first call to read the cursor after that frame's publication drops exactly the frames lost |
| RingTheorems.LateStartDrops | native/windows-virtual-mic/include/vsn_virtual_mic_ring_consumer.h:120-148 | a call that starts after that publication drops iff the cursor it reads is more than a capacity past the consumer; if it drops nothing an earlier call had seen the frame and dropped, and if none had it does drop |
| RingTheorems.LateStartDropsIffUnseen | native/windows-virtual-mic/include/vsn_virtual_mic_ring_consumer.h:120-148 | while nothing more is published after the frame is first seen, such a call drops iff no call in between had read the producer cursor after the publication |
| RingWitness.LateCallReportsNoDrop | native/windows-virtual-mic/include/vsn_virtual_mic_ring_consumer.h:120-148 | a reachable run of a one-slot ring in which the first call to start after the publication reports no drop |
| RingTheorems.UnstableFrameIsDropped | native/windows-virtual-mic/include/vsn_virtual_mic_ring_consumer.h:120-148 | once a call starts after that publication, at least one drop has been reported since the unstable call |
| RingTheorems.NothingDeliveredWithoutDrops | native/windows-virtual-mic/include/vsn_virtual_mic_ring_consumer.h:161-189 | until a drop is reported an unstable frame holds the position and nothing is delivered |
| RingTheorems.ThirdPartySnapshot | native/windows-virtual-mic/include/vsn_virtual_mic_cursor_sync.h:82-120 | a snapshot by a third thread is ordered, field by field between start and end, and never overstates the backlog at its consumer load |
| RingWitness.SnapshotPairNeverCoexisted | native/windows-virtual-mic/include/vsn_virtual_mic_cursor_sync.h:82-120 | a reachable run and a stable snapshot of it whose producer and consumer cursors stood together in no state |
| RingTheorems.PairCoexists | native/windows-virtual-mic/include/vsn_virtual_mic_cursor_sync.h:82-120 | the two cursors of a snapshot have stood together iff the consumer reached its own before the producer passed the other |
| SessionReset.ResetNeverMixes | native/windows-virtual-mic/include/vsn_virtual_mic_cursor_sync.h:82-141 | beside a reset no status reader takes a mixture of two sessions for a stable snapshot, whatever its load points and attempts, iff the generation changes or at most one of the four fields has to be cleared |
| SessionReset.ReusedGenerationMixes | native/windows-virtual-mic/include/vsn_virtual_mic_cursor_sync.h:82-141 | for every cursor block with two fields set whose generation is reused: load points that do mix |
| RingRegion.Region.constructor | native/windows-virtual-mic/driver/vsn_virtual_mic_wdm_control_scaffold.cpp:211-219 | a zeroed section passes through exactly the stores of the reset, no snapshot beside them mixes, and the machine starts in its initial state with an empty history |
| RingRegion.Region.InitializeCursorSession | native/windows-virtual-mic/include/vsn_virtual_mic_cursor_sync.h:122-141 | refuses generation zero without effect; otherwise the marker, the four fields and the generation are stored in exactly this order |
| RingRegion.Region.ReadStableCursorSnapshot | native/windows-virtual-mic/include/vsn_virtual_mic_cursor_sync.h:82-120 | the bounded retry loop is the machine's snapshot, whatever the producer does between loads |
| RingRegion.Region.PublishConsumerSequence | native/windows-virtual-mic/include/vsn_virtual_mic_cursor_sync.h:176-207 | any arguments: zero and foreign generations and unencodable cursors are refused; a cursor the protocol calls for is the machine's publication; any other is refused as regression or ahead by the cursors as they stand, or stored and nothing else changed |
| RingRegion.Region.RecordOverrunDrops | native/windows-virtual-mic/include/vsn_virtual_mic_cursor_sync.h:209-217 | one interlocked addition, wrapping |
| RingRegion.Region.RecordUnderrun | native/windows-virtual-mic/include/vsn_virtual_mic_cursor_sync.h:223-229 | one interlocked increment, wrapping, ends an empty call |
| RingRegion.Region.CopyRingBytes | native/windows-virtual-mic/include/vsn_virtual_mic_ring_consumer.h:42-48 | copies the slot byte by byte with the producer running between any two bytes |
| RingRegion.Region.ZeroRingBytes | native/windows-virtual-mic/include/vsn_virtual_mic_ring_consumer.h:50-56 | every output byte is zero afterwards |
| RingRegion.Region.ReadSlot | native/windows-virtual-mic/include/vsn_virtual_mic_ring_consumer.h:161-203 | stamp, copy, stamp again, publish: returns what the machine's call returns |
| RingRegion.Region.FinishCall | native/windows-virtual-mic/include/vsn_virtual_mic_ring_consumer.h:150-203 | silence for an empty window, otherwise the guarded read |
| RingRegion.Region.AccountDrops | native/windows-virtual-mic/include/vsn_virtual_mic_ring_consumer.h:137-148 | the cursor moves past dropped frames before they are counted |
| RingRegion.Region.ConsumeOneRingFrame | native/windows-virtual-mic/include/vsn_virtual_mic_ring_consumer.h:76-203 | either an argument check fails and nothing changes, as it does whenever the region is smaller than the layout, or one machine call is completed with exactly the returned status, result and bytes |
| RingRegion.PrecheckExactly | native/windows-virtual-mic/include/vsn_virtual_mic_ring_consumer.h:76-119 | each refusal by its own condition, and acceptance iff the generation matches, the ideal layout fits the region and the output is one frame |
| RingRegion.RegionCoversSlots | native/windows-virtual-mic/include/vsn_virtual_mic_ring_consumer.h:76-119 | an accepted region covers the cursors and the stamp and frame of every slot |
| RingRegion.Region.BeginSlotWrite | native/windows-virtual-mic/include/vsn_virtual_mic_slot_sync.h:21-38 | marks the slot as writing and begins the frame, or refuses an unencodable sequence without effect |
| RingRegion.Region.WriteSlotBytes | native/windows-virtual-mic/include/vsn_virtual_mic_slot_sync.h:60-61 | the payload, a byte at a time, with the consumer running in between |
| RingRegion.Region.CommitSlotWrite | native/windows-virtual-mic/include/vsn_virtual_mic_slot_sync.h:40-64 | stores the stable stamp exactly when the slot still carries the writing stamp |
| RingRegion.Region.PublishProducerSequence | native/windows-virtual-mic/include/vsn_virtual_mic_cursor_sync.h:143-174 | any arguments: zero and foreign generations and unencodable counts are refused; the count the protocol calls for is the machine's publication; any other is refused iff it is a regression, or stored and nothing else changed |
| RingRegion.Region.ProduceFrame | native/windows-virtual-mic/include/vsn_virtual_mic_cursor_sync.h:169-173 | the whole producer protocol publishes the frame iff its sequence can be encoded |
| TransportBridge.ConnectFixesGeometry | native/windows-virtual-mic/include/vsn_virtual_mic_device_control.h:176-207 | an accepted request fixes the frame to one tick and bounds the capacity |
| TransportBridge.ConnectAcceptsExactly | native/windows-virtual-mic/driver/vsn_virtual_mic_wdm_control_scaffold.cpp:287-300 | a validated request is accepted iff its region fits the section limit, that is iff its capacity is at most 8701 frames |
| TransportBridge.RequestFields | native/windows-virtual-mic/include/vsn_virtual_mic_device_control.h:159-207 | validation accepts exactly the requests whose every field but generation and capacity is the one value it must have |
| TransportBridge.RequestFaults | native/windows-virtual-mic/include/vsn_virtual_mic_device_control.h:159-207 | which fault is reported, by the first check that is not in order |
| TransportBridge.CallAdvancesCursor | native/windows-virtual-mic/include/vsn_virtual_mic_ring_consumer.h:137-202 | a finished call leaves the cursor past what it delivered, and delivers a produced frame or zeros |
| TransportBridge.NoRingFailure | native/windows-virtual-mic/driver/vsn_virtual_mic_wdm_control_scaffold.cpp:545-563 | no reachable call is one the bridge reports as a ring failure |
| TransportBridge.ControlBridge.Connect | native/windows-virtual-mic/driver/vsn_virtual_mic_wdm_control_scaffold.cpp:265-347 | succeeds iff unconnected, the request passes the gate and its section comes up, and then publishes a fresh session, a publication step of `ControlDevice`; no session ever loses a frame of its history |
| TransportBridge.ControlBridge.Disconnect | native/windows-virtual-mic/driver/vsn_virtual_mic_wdm_control_scaffold.cpp:85-117 | nothing is published afterwards, a publication step of `ControlDevice` |
| TransportBridge.ControlBridge.ConsumeFrame | native/windows-virtual-mic/driver/vsn_virtual_mic_wdm_control_scaffold.cpp:523-585 | over an accepted connection: the frame the one ring call delivered or silence if it delivered none; the cursor moves by the drops counted and the frame answered; with an idle producer and something unread the answer is the oldest frame still in the ring; every answered frame was produced, recorded and later than all before it |
| StreamContract.ReducedSum | native/windows-virtual-mic/include/vsn_virtual_mic_wavert_stream_contract.h:163-169 | reducing after each addition is reducing the sum |
| StreamContract.AdvanceKeepsClosedForm | native/windows-virtual-mic/include/vsn_virtual_mic_wavert_stream_contract.h:136-179 | the closed form is kept, failures change nothing, overflow is reported iff the linear position would overflow, and the cyclic sum never wraps |
| StreamContract.AdvanceAnswers | native/windows-virtual-mic/include/vsn_virtual_mic_wavert_stream_contract.h:136-179 | when each status is returned, outside RUN, for sizes that are no whole blocks and for overflows included, and how far a successful advance moves |
| StreamContract.PositionsClosedForm | native/windows-virtual-mic/include/vsn_virtual_mic_wavert_stream_contract.h:113-179 | over every run cyclic, accumulator and notification total are functions of the bytes moved |
| StreamContract.StreamRuntime.Initialize | native/windows-virtual-mic/include/vsn_virtual_mic_wavert_stream_contract.h:83-111 | zeroes the positions iff the geometry is valid |
| StreamContract.GeometryRefusals | native/windows-virtual-mic/include/vsn_virtual_mic_wavert_stream_contract.h:65-81 | each refusal of a geometry by its own condition, in terms of whole blocks |
| StreamContract.StreamRuntime.SetState | native/windows-virtual-mic/include/vsn_virtual_mic_wavert_stream_contract.h:113-134 | accepts exactly the same state and its neighbours, STOP zeroes the positions, closed form kept |
| StreamContract.TransitionTable | native/windows-virtual-mic/include/vsn_virtual_mic_wavert_stream_contract.h:50-63 | the accepted pairs of states |
| StreamContract.WalkDown | native/windows-virtual-mic/include/vsn_virtual_mic_wavert_stream_contract.h:113-134 | from every state the walk down to STOP is accepted and ends with all positions zero |
| StreamContract.WalkUp | native/windows-virtual-mic/include/vsn_virtual_mic_wavert_stream_contract.h:113-134 | from STOP the walk up to RUN is accepted and moves nothing |
| StreamContract.StreamRuntime.AdvancePosition | native/windows-virtual-mic/include/vsn_virtual_mic_wavert_stream_contract.h:136-179 | wherever the advance is defined the in-place update is the specified one, and it keeps the closed form |
| WaveRtStream.PlanIsCyclic | native/windows-virtual-mic/include/vsn_virtual_mic_wavert_scheduler.h:25-54 | the two-part plan is the write at (position + k) mod size for every k |
| WaveRtStream.PlanAnswers | native/windows-virtual-mic/include/vsn_virtual_mic_wavert_scheduler.h:25-54 | a plan succeeds iff the frame is not empty, fits the buffer and starts inside it, and each refusal has its condition |
| WaveRtStream.WriteExtendsWindow | native/windows-virtual-mic/driver/vsn_virtual_mic_wavert_stream.cpp:251-275 | a cyclic write at the end of the stream leaves the newest buffer-full in place |
| WaveRtStream.PlannedCopyIsWritten | native/windows-virtual-mic/driver/vsn_virtual_mic_wavert_stream.cpp:261-270 | the two copies put every byte at its cyclic position and touch no other |
| WaveRtStream.TickAdvance | native/windows-virtual-mic/driver/vsn_virtual_mic_wavert_stream.cpp:251-276 | a running stream's tick plan always succeeds and its advance does iff the linear position fits |
| WaveRtStream.EndpointContent | native/windows-virtual-mic/driver/vsn_virtual_mic_wavert_stream.cpp:224-284 | byte j of the endpoint's stream is in buffer[j mod size], from its tick's frame; every such frame is silence or exactly the frame its session produced under its sequence, in session order; ring entries, drops and frames that left the log add up to the transport's cursor |
| WaveRtStream.StartedMeansLive | native/windows-virtual-mic/driver/vsn_virtual_mic_wavert_stream.cpp:227-231 | a started scheduler implies RUN and a live buffer of the advertised size |
| WaveRtStream.FlattenIndex | native/windows-virtual-mic/driver/vsn_virtual_mic_wavert_stream.cpp:236-249 | byte j of the stream is byte j mod 1920 of tick j / 1920 |
| WaveRtStream.Stream.OnSchedulerTick | native/windows-virtual-mic/driver/vsn_virtual_mic_wavert_stream.cpp:224-284 | appends exactly one frame while started and in range, the one the ring call of this tick delivered; otherwise moves nothing, the transport included; never writes a freed buffer |
| WaveRtStream.Stream.PullFrame | native/windows-virtual-mic/driver/vsn_virtual_mic_wavert_stream.cpp:234-249 | the scratch frame is what the one ring call delivered, or silence if it delivered none, whatever it held before |
| WaveRtStream.Stream.WriteFrame | native/windows-virtual-mic/driver/vsn_virtual_mic_wavert_stream.cpp:261-270 | the in-place copy in terms of the linear position |
| WaveRtStream.Stream.PlaceFrame | native/windows-virtual-mic/driver/vsn_virtual_mic_wavert_stream.cpp:251-283 | write then advance keeps the window |
| WaveRtStream.Stream.CancelSchedulerAndFlush | native/windows-virtual-mic/driver/vsn_virtual_mic_wavert_stream.cpp:191-204 | afterwards no tick moves anything until restarted |
| WaveRtStream.Stream.SetState | native/windows-virtual-mic/driver/vsn_virtual_mic_wavert_stream.cpp:564-620 | the accepted requests by number and state; a buffer is needed above STOP; STOP zeroes every position; ticks fall between its lock sections |
| WaveRtStream.StateRequests | native/windows-virtual-mic/driver/vsn_virtual_mic_wavert_stream.cpp:66-79 | which numbers are states, which state each is, and from where it may be requested |
| WaveRtStream.Stream.AllocateAudioBuffer | native/windows-virtual-mic/driver/vsn_virtual_mic_wavert_stream.cpp:323-385 | succeeds iff large enough, unallocated and pages map; the buffer is fresh and block-aligned |
| WaveRtStream.Stream.AllocateBufferWithNotification | native/windows-virtual-mic/driver/vsn_virtual_mic_wavert_stream.cpp:424-477 | succeeds iff the size is a whole number of blocks in equal parts of whole blocks, large enough, unallocated and pages map; notifications come at those parts |
| WaveRtStream.EqualPartsExactly | native/windows-virtual-mic/driver/vsn_virtual_mic_wavert_stream.cpp:424-477 | the sizes accepted are the multiples of the part count in whole blocks, and the parts make up the buffer |
| WaveRtStream.Stream.FreeAudioBuffer | native/windows-virtual-mic/driver/vsn_virtual_mic_wavert_stream.cpp:387-422 | the buffer is detached before it is freed and no freed buffer is written |
| ControlDevice.LocksMoveWithThread | native/windows-virtual-mic/driver/vsn_virtual_mic_wdm_control_scaffold.cpp:85-117 | a step takes a lock only when free and gives up only its own |
| ControlDevice.StepKeepsInv | native/windows-virtual-mic/driver/vsn_virtual_mic_wdm_control_scaffold.cpp:265-482 | every step of every thread keeps the mapping invariant: locks, device extension, sections and readers |
| ControlDevice.NoUseAfterUnmap | native/windows-virtual-mic/driver/vsn_virtual_mic_wdm_control_scaffold.cpp:523-585 | every access through the view happens while it is mapped; nothing is unmapped or released twice |
| ControlDevice.ConnectedMeansMapped | native/windows-virtual-mic/driver/vsn_virtual_mic_wdm_control_scaffold.cpp:319-331 | unless a control call holds the spin lock, connected iff a view iff its section |
| ControlDevice.ReleasedExactlyOnce | native/windows-virtual-mic/driver/vsn_virtual_mic_wdm_control_scaffold.cpp:134-248 | between control calls every section but the connected one has been unmapped and released exactly once, failed creations included |
| ControlDevice.StepPublishes | native/windows-virtual-mic/driver/vsn_virtual_mic_wdm_control_scaffold.cpp:265-347 | only two steps change what is published, each by one whole session coming up, with a section never published before, or going down |
| ControlDevice.RunPublishes | native/windows-virtual-mic/driver/vsn_virtual_mic_wdm_control_scaffold.cpp:85-117 | over every run the publication starts empty and takes only those steps, the ones `ControlBridge` takes |
| ControlDevice.ReaderSeesOneRegion | native/windows-virtual-mic/driver/vsn_virtual_mic_wdm_control_scaffold.cpp:523-585 | a realtime critical section sees one publication from beginning to end, and each access in it is to the published section |
| ControlDevice.ReaderReads | native/windows-virtual-mic/driver/vsn_virtual_mic_wdm_control_scaffold.cpp:523-545 | a realtime thread that enters reads the published section whenever there is one |
| ControlDevice.AdmissionExactly | native/windows-virtual-mic/driver/vsn_virtual_mic_wdm_control_scaffold.cpp:119-133 | in every run a CONNECT is admitted iff nothing is published, a DISCONNECT or QUERY iff process, file and generation are those of the CONNECT that brought the published section up, a CLEANUP iff its file is; deciding changes nothing |
| ControlDevice.RefusedCallLeavesNoTrace | native/windows-virtual-mic/driver/vsn_virtual_mic_wdm_control_scaffold.cpp:350-482 | whatever happens meanwhile, a refused call leaves the device extension and every section as they were |
| ControlDevice.TeardownCompletes | native/windows-virtual-mic/driver/vsn_virtual_mic_wdm_control_scaffold.cpp:85-117 | whatever happens meanwhile, once the thread of an admitted teardown is out of the call nothing is published and the section was unmapped and released exactly once |
| ControlDevice.ReleasedForGood | native/windows-virtual-mic/driver/vsn_virtual_mic_wdm_control_scaffold.cpp:85-117 | a released section stays released and is never published again |
| ControlDevice.ConnectAlone | native/windows-virtual-mic/driver/vsn_virtual_mic_wdm_control_scaffold.cpp:265-347 | a CONNECT nobody and no failure holds up publishes a new section under its own process, file and generation |
| ControlDevice.TeardownAlone | native/windows-virtual-mic/driver/vsn_virtual_mic_wdm_control_scaffold.cpp:85-117 | a teardown nobody holds up is over after nine steps |
| Reframing.PacketByteLenFits | native/windows-audio/src/packet_reframer.rs:215-223 | the packet size overflow can never be reported |
| Reframing.BytesOfRun | native/windows-audio/src/packet_reframer.rs:185-190 | a run of a packet's frames carries exactly that slice of its bytes |
| Reframing.CutIsExact | native/windows-audio/src/packet_reframer.rs:139-143 | cutting loses nothing and leaves less than one frame |
| Reframing.CutIncrementally | native/windows-audio/src/packet_reframer.rs:105-144 | cutting as packets arrive equals cutting the whole |
| Reframing.EmitIsFrames | native/windows-audio/src/packet_reframer.rs:139-212 | the pop loop succeeds iff every output position fits, and then yields the whole cut |
| Reframing.StreamEquality | native/windows-audio/src/packet_reframer.rs:105-212 | for any list of well-formed packets, outputs are the stretches between discontinuities cut as wholes and the partial frame of the last stays pending; failure iff a position overflows |
| Reframing.StreamFailure | native/windows-audio/src/packet_reframer.rs:139-177 | a stream that fails leaves pending the audio frame at the position of the first reference output that does not fit |
| Reframing.OverflowPersists | native/windows-audio/src/packet_reframer.rs:105-144 | from then on, up to a well-formed non-empty discontinuous packet, a push overflows iff its packet is well-formed and not empty, and the same frame stays first; such a packet is pushed as into an empty reframer |
| Reframing.PushWithoutEffect | native/windows-audio/src/packet_reframer.rs:105-120 | a malformed packet is refused with both byte counts, an empty one ignored, and neither touches what is pending |
| Reframing.PacketBoundariesLeaveNoTrace | native/windows-audio/src/packet_reframer.rs:105-212 | output bytes are the byte stream cut at fixed offsets, and outputs plus pending give the stretch back |
| Reframing.OutputFlags | native/windows-audio/src/packet_reframer.rs:179-183 | silent iff every contributing packet is, timestamp error iff some contributing packet has one |
| Reframing.OutputPosition | native/windows-audio/src/packet_reframer.rs:164-177 | positions are exactly those of the first audio frame |
| Reframing.DiscontinuityMarksFirstOutput | native/windows-audio/src/packet_reframer.rs:181-193 | within a stretch only the first output is marked, iff a discontinuity opened the stretch |
| Reframer.PacketReframer.New | native/windows-audio/src/packet_reframer.rs:79-94 | for any sample rate, refused iff the alignment or the target is zero |
| Reframer.PacketReframer.Reset | native/windows-audio/src/packet_reframer.rs:100-103 | nothing stays pending |
| Reframer.PacketReframer.TakeFront | native/windows-audio/src/packet_reframer.rs:155-199 | takes exactly the next frames, their bytes and their flags from the front segment |
| Reframer.PacketReframer.PopFrame | native/windows-audio/src/packet_reframer.rs:146-212 | pops exactly the next target frames, or fails with no effect iff their position overflows; a source segment is always there |
| Reframer.PacketReframer.Push | native/windows-audio/src/packet_reframer.rs:105-144 | the in-place push is the specified one, errors and leftover state included |
| StreamControl.DelayIsCappedDoubling | native/audio-core/src/stream_control.rs:48-53 | the delay is the initial one doubled per failure, at most 20 times, capped; saturation never shows |
| StreamControl.DelaysGrow | native/audio-core/src/stream_control.rs:48-53 | delays never shrink as failures accumulate |
| StreamControl.StreamController.ApplyEvent | native/audio-core/src/stream_control.rs:119-208 | the in-place transition is the specified one |
| StreamControl.OrdersExactly | native/audio-core/src/stream_control.rs:119-208 | for every order, in which states and at which events exactly it is given, and where it leaves the controller |
| StreamControl.RecoveryRounds | native/audio-core/src/stream_control.rs:119-208 | from recovering, each failed round orders one open and the next backoff, and the last permitted failure surfaces its own fault |
| StreamControl.RecoveryEnds | native/audio-core/src/stream_control.rs:119-208 | after any failed rounds short of the limit, an open that succeeds ends running with no failure counted |
| StreamControl.StopAndStart | native/audio-core/src/stream_control.rs:119-208 | from every state, failed included, a stop and a start open the device again |
| StreamControl.PolicyTable | native/audio-core/src/stream_control.rs:26-45 | which policies are refused, and for what |
| StreamControl.ApplyKeepsEpisode | native/audio-core/src/stream_control.rs:119-208 | every event in every state keeps a recovery episode within the policy |
| StreamControl.RecoveryIsBounded | native/audio-core/src/stream_control.rs:119-208 | over every event sequence an episode orders at most the permitted opens with non-decreasing delays in range |
| CaptureTheorems.AssembleNumbers | native/windows-audio/src/frame_assembler.rs:63-94 | assembled frames are numbered consecutively and carry their packet's decoded samples, metadata and capture time; failure never turns the numbering back |
| CaptureTheorems.AssembleSucceeds | native/windows-audio/src/frame_assembler.rs:63-94 | assembly succeeds iff every frame decodes, passes the check and has a number left |
| CaptureTheorems.DrainNumbers | native/windows-audio/src/capture_pump.rs:158-191 | a successful drain is numbered from the old to the new next sequence, within budget, and reports the queue truthfully |
| CaptureTheorems.DrainSucceeds | native/windows-audio/src/capture_pump.rs:158-191 | a drain succeeds iff its loop ends by an empty queue or the budget before any source error and every packet read is assembled; then it hands out exactly their frames and reports the queue; otherwise it fails with the first error met |
| CaptureTheorems.DrainUses | native/windows-audio/src/capture_pump.rs:158-191 | a drain, failing or not, moves the numbering by exactly the frames it assembled; a successful one hands all of them out |
| CaptureTheorems.DrainDelivers | native/windows-audio/src/capture_pump.rs:158-191 | a drain hands out exactly the assembly of the packets it read |
| CaptureTheorems.PumpDeliversReference | native/windows-audio/src/capture_pump.rs:150-191 | over a pump's life all frames are the assembly of the reference reframing of all packets read |
| CaptureTheorems.StepKeepsInv | native/windows-audio/src/capture_runtime.rs:220-349 | between calls a pump is held iff running, no transient state shows, drains are consecutive, and a poll fails iff not running |
| CaptureTheorems.OpeningCall | native/windows-audio/src/capture_runtime.rs:301-340 | a start while stopped or a retry while recovering asks once; it ends running with a fresh pump that numbers on, or recovering or failed with the error reported |
| CaptureTheorems.UncalledForOpening | native/windows-audio/src/capture_runtime.rs:220-240 | in any other state neither call does anything |
| CaptureTheorems.PollCall | native/windows-audio/src/capture_runtime.rs:242-275 | a poll hands out the pump's drain unchanged; if the drain fails the pump is dropped, its numbering kept, the error reported, and the runtime recovers or gives up |
| CaptureTheorems.EndingCall | native/windows-audio/src/capture_runtime.rs:277-299 | a notification or a stop drops the pump and keeps its numbering; a stop always ends stopped |
| CaptureTheorems.RetriesReopen | native/windows-audio/src/capture_runtime.rs:231-240 | after any retries failing with faults that may pass, short of the limit, one that opens leaves the runtime running |
| CaptureTheorems.FaultTable | native/windows-audio/src/capture_runtime.rs:131-151 | which errors are worth a retry, and the fault of each |
| CaptureTheorems.RefusalTable | native/windows-audio/src/frame_assembler.rs:28-49 | why a session is refused, in order |
| CaptureTheorems.StepKeepsEpisode | native/windows-audio/src/capture_runtime.rs:220-349 | every public call keeps the recovery episode within the policy |
| CaptureTheorems.SequencesNeverReused | native/windows-audio/src/capture_runtime.rs:242-349 | over every run frame numbers strictly increase across all drains and reopenings |
| CaptureTheorems.GapsAreExact | native/windows-audio/src/capture_runtime.rs:242-349 | over every run the numbers used up are those handed out plus those lost in failing drains; the frames handed out are numbered without a gap iff no failing drain had assembled a frame |
| CaptureTheorems.ReadErrorLosesFrame | native/windows-audio/src/capture_pump.rs:158-191 | such a run: a packet is assembled, the next read fails, and number 0 is never handed out |
| CaptureTheorems.PumpNeverMissing | native/windows-audio/src/capture_runtime.rs:242-275 | the missing-pump error is unreachable |
| CaptureTheorems.RuntimeRecoveryIsBounded | native/windows-audio/src/capture_runtime.rs:220-349 | over every run an episode makes at most the permitted opens, with failures to spare while recovering |
| Capture.FailureSticks | native/windows-audio/src/frame_assembler.rs:63-74 | once a frame fails to assemble the rest are not looked at |
| Capture.CaptureFrameAssembler.New | native/windows-audio/src/frame_assembler.rs:28-49 | for any sample rate, refused exactly for the listed reasons, in that order |
| Capture.CaptureFrameAssembler.AssembleFrame | native/windows-audio/src/frame_assembler.rs:75-95 | a sequence number is used up iff the frame assembles |
| Capture.CaptureFrameAssembler.PushPacket | native/windows-audio/src/frame_assembler.rs:63-74 | the loop equals the specified push |
| Capture.CapturePump.New | native/windows-audio/src/capture_pump.rs:90-112 | for any sample rate, refused iff the budget is zero or the assembler is |
| Capture.CapturePump.DrainAvailable | native/windows-audio/src/capture_pump.rs:158-191 | the bounded loop equals the specified drain for any answers of the source |
| Capture.CapturePump.WaitThenDrain | native/windows-audio/src/capture_pump.rs:150-156 | a timeout drains nothing |
| Capture.CaptureRuntime.OpenDeviceNow | native/windows-audio/src/capture_runtime.rs:301-340 | one open attempt, its transition and its error |
| Capture.CaptureRuntime.StartCapture | native/windows-audio/src/capture_runtime.rs:220-229 | equals the specified call |
| Capture.CaptureRuntime.RetryTimerElapsedNow | native/windows-audio/src/capture_runtime.rs:231-240 | equals the specified call |
| Capture.CaptureRuntime.PollPump | native/windows-audio/src/capture_runtime.rs:242-275 | equals the specified call, failing pumps included |
| Capture.CaptureRuntime.NotifyDeviceInvalidated | native/windows-audio/src/capture_runtime.rs:277-284 | equals the specified call |
| Capture.CaptureRuntime.StopCapture | native/windows-audio/src/capture_runtime.rs:286-299 | equals the specified call |
| Capture.CaptureRuntime.DiscardPump | native/windows-audio/src/capture_runtime.rs:342-348 | the numbering survives the pump |
| DesktopLink.StepKeepsInv | services/api/src/device-link/desktop-link.service.ts:200-308 | every step of every request over either store keeps the link invariant |
| DesktopLink.SingleUse | services/api/src/device-link/desktop-link.service.ts:257-308 | at most one consume of a record ever succeeds, and never beside a successful revoke |
| DesktopLink.BindingMatchesIssue | services/api/src/device-link/desktop-link.service.ts:270-307 | a binding carries the token and names the subject, organization and device of its issue, from issue to before an expiry that is the requested time, or five minutes, later |
| DesktopLink.OfferStatesExpiry | services/api/src/device-link/desktop-link.service.ts:104-137 | an offer states its own link's expiry, the requested time or five minutes after the link was issued |
| DesktopLink.SnapshotStatesLink | services/api/src/device-link/desktop-link.service.ts:167-255 | the answer to a revoke or an inspect states the caller's own link, field by field |
| DesktopLink.InspectAnswers | services/api/src/device-link/desktop-link.service.ts:167-198 | an inspect answers expired iff the link is issued and the clock has reached its expiry, otherwise its status, and nothing of a foreign link |
| DesktopLink.FinalStatesAbsorb | services/api/src/device-link/desktop-link-record.ts:53-102 | consumed and revoked records never change again and links keep their identity |
| DesktopLink.StepsAgree | services/api/src/device-link/postgres-desktop-link-record-store.ts:51-96 | from a common state both stores act alike iff no record or id that the SQL store refuses is being inserted or looked up |
| DesktopLink.StoresAgree | services/api/src/device-link/postgres-desktop-link-record-store.ts:217-323 | over whole runs both stores answer every request alike iff that never happens |
| DesktopLink.StoresAgreeOnRequests | services/api/src/device-link/postgres-desktop-link-record-store.ts:140-235 | for any set of requests: all runs over them are answered alike by both stores iff none of them is accepted by the service with an identifier that the SQL store or its text columns refuse |
| DesktopLink.RequiredIdentifierIsBounded | services/api/src/device-link/desktop-link.controller.ts:100-109 | the controller refuses exactly blank and over-long ids; what it passes on is the value without the spaces around it and satisfies the SQL store's device id check |
| DesktopLink.ControllerRequestsAgree | services/api/src/device-link/desktop-link.controller.ts:100-123 | a request with a bounded principal, organization and record id and a device id the controller passed is refused by SQL iff it is an issue the service accepts and the device id holds a U+0000 |
| DesktopLink.NulDeviceDiverges | services/api/migrations/0002_desktop_link_records.sql:3-9 | such a device id passes the controller; the in-memory store offers, the SQL store throws |
| DesktopLink.UntrimmedDeviceDiverges | services/api/src/device-link/postgres-desktop-link-record-store.ts:140-148 | at the service interface, past the controller, a device id with a leading space is such a record: one store offers, the other throws |
| DesktopLinkService.InMemoryDesktopLinkRecordStore.PutRecord | services/api/src/device-link/desktop-link-record.ts:42-47 | stores iff the id is new |
| DesktopLinkService.InMemoryDesktopLinkRecordStore.ConsumeRecordIfIssued | services/api/src/device-link/desktop-link-record.ts:53-74 | the compare-and-set of the specification |
| DesktopLinkService.InMemoryDesktopLinkRecordStore.RevokeRecordIfIssued | services/api/src/device-link/desktop-link-record.ts:76-102 | the compare-and-set of the specification |
| DesktopLinkService.Service.IssueLink | services/api/src/device-link/desktop-link.service.ts:104-137 | its answer is the machine's for that request; offered iff permitted, within ttl bounds and stored; the record stored, field by field, with the expiry offered |
| DesktopLinkService.Service.ConsumeLink | services/api/src/device-link/desktop-link.service.ts:257-308 | its answer is the machine's under any schedule of other requests; succeeds only on a matching issued unexpired link, and is denied only for a stated reason |
| DesktopLinkService.Service.RevokeLink | services/api/src/device-link/desktop-link.service.ts:200-255 | its answer is the machine's under any schedule of other requests; succeeds only on the caller's issued or already revoked link, and is denied only for a stated reason |
| DesktopLinkService.ServiceSingleUse | services/api/src/device-link/desktop-link.service.ts:257-308 | over everything a service object has answered, a link is handed out once and never beside a revocation |
| DesktopLinkService.ServiceBinding | services/api/src/device-link/desktop-link.service.ts:270-307 | a link a service object hands out names the identities of an issue it has served |
| EnginePeriod.NearestIsOptimal | native/windows-audio/src/engine_period.rs:54-86 | the closest grid point to the unclamped target, ties to the lower, and the fall-back is never taken |
| EnginePeriod.AcceptedIsGrid | native/windows-audio/src/engine_period.rs:13-46 | a range is accepted iff it is a non-empty grid from minimum to maximum that holds the default |
| EnginePeriod.LowerIsSupported | native/windows-audio/src/engine_period.rs:47-64 | rounding the clamped target down stays on the grid |

## Left out

- RingMachine.ProducerStep: the producer follows the commented order begin, payload, commit, publish and writes only its own fields; a hostile producer is out of scope.
- Memory order: interlocked full barriers are modelled as sequential consistency; weak memory is not.
- RingRegion.Region.ProducerInterference: stands for any number of steps of the other process; its contract is what callers use, its body is the shortest such run. The same holds of RingRegion.Region.ConsumerInterference, DesktopLinkService.Service.OtherRequests and the gap parameters of the stream's control calls.
- Argument checks for null pointers, interrupt levels and handle values.
- Windows, COM, PortCls and WASAPI calls, section creation and IRP plumbing appear as map, unmap, reference and lock steps or as success or failure parameters.
- ControlDevice.NoUseAfterUnmap: device creation and deletion are not modelled; the user's section handle is not tracked; the owner fields and `connected` change in one step.
- WaveRtStream.Stream.SetState: timer and scratch frame exist (stream creation fails without them), and control calls are serialised by the port driver.
- Notification events, position queries, property handlers, destructor and stream factory of the WaveRT miniport.
- Reframer.PacketReframer.Push: specified for a positive sample rate. The constructors accept rate zero, and the source would then divide by it at the first popped frame; the capture plan rules it out.
- CaptureSpec.AssembleOne: sample decoding and the validation of decoded samples are function parameters; floating point is not modelled.
- CaptureSpec.Classify: error message texts are dropped; a backend fault carries no message.
- CaptureSpec.Step: the opener's, source's and device's answers are parameters; the event capture session behind them is not modelled.
- DesktopLink.Step: times are integer milliseconds on one non-decreasing clock, the digest is a function parameter compared as a whole, record ids and tokens are supplied with the request, and the database fails only on texts it cannot hold. Strings are sequences of Unicode scalar values: unpaired surrogates are not modelled.
- `listLatestConsumed` and `listLinked`: sorting and paging of finished links.
- Ring staging buffers, frame queues, device catalogue, capture-plan selection, web, identity and workspace code, the rest of the controllers, configuration and scripts: single-function checks or foreign effects that would add only easy members.
