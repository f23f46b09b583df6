/** The capture stream: a timer tick writes into a cyclic buffer while control calls run beside it. */
module WaveRtStream {
  import opened Words
  import opened Wrappers
  import opened Arithmetic
  import opened StreamContract
  import opened TransportBridge
  import opened RingMachine

  // ----- the cyclic write -----

  datatype WritePlan = WritePlan(firstOffset: u64, firstBytes: u64, secondOffset: u64, secondBytes: u64)

  datatype SchedulerError = InvalidBuffer | InvalidFrame | InvalidPosition

  /** `PlanWaveRtCyclicWrite`. */
  function PlanCyclicWrite(buffer: u64, cyclic: u64, frame: u64): Result<WritePlan, SchedulerError> {
    if buffer == 0 then Failure(InvalidBuffer)
    else if frame == 0 || frame > buffer then Failure(InvalidFrame)
    else if cyclic >= buffer then Failure(InvalidPosition)
    else
      var remaining := buffer - cyclic;
      var first := if frame < remaining then frame else remaining;
      Success(WritePlan(cyclic, first, 0, frame - first))
  }

  /**
   A plan is refused for an empty buffer, for a frame that is empty or larger than it, or for a position outside it.
   */
  lemma {:induction false} PlanAnswers(buffer: u64, cyclic: u64, frame: u64)
    ensures var r := PlanCyclicWrite(buffer, cyclic, frame);
            && (r.Success? <==> 0 < frame <= buffer && cyclic < buffer)
            && (r == Failure(InvalidBuffer) <==> buffer == 0)
            && (r == Failure(InvalidFrame) <==> buffer != 0 && !(0 < frame <= buffer))
            && (r == Failure(InvalidPosition) <==> 0 < frame <= buffer <= cyclic)
  {
  }

  /** The byte position the k-th byte of a planned write lands on. */
  function PlannedIndex(p: WritePlan, k: nat): int {
    if k < p.firstBytes then p.firstOffset + k else p.secondOffset + (k - p.firstBytes)
  }

  /**
   A planned write of any frame not larger than the buffer is the write at (position + k) mod size, each byte once.
   */
  lemma {:induction false} PlanIsCyclic(buffer: u64, cyclic: u64, frame: u64)
    requires PlanCyclicWrite(buffer, cyclic, frame).Success?
    ensures var p := PlanCyclicWrite(buffer, cyclic, frame).value;
            && p.firstBytes + p.secondBytes == frame
            && (forall k :: 0 <= k < frame ==> PlannedIndex(p, k) == (cyclic + k) % buffer)
  {
    var p := PlanCyclicWrite(buffer, cyclic, frame).value;
    forall k | 0 <= k < frame ensures PlannedIndex(p, k) == (cyclic + k) % buffer {
      if k < p.firstBytes {
        RemainderIs(cyclic + k, buffer, 0, cyclic + k);
      } else {
        RemainderIs(cyclic + k, buffer, 1, cyclic + k - buffer);
      }
    }
  }

  /** The cyclic position of linear position x. */
  function At(x: nat, n: nat): (r: nat)
    requires 0 < n
    ensures r < n
  {
    x % n
  }

  /** Bytes [from, |stream|) of the stream are where the cyclic positions say. */
  ghost predicate Holds(buffer: seq<byte>, stream: seq<byte>, from: int) {
    0 < |buffer| && forall j :: 0 <= j < |stream| && from <= j ==> buffer[At(j, |buffer|)] == stream[j]
  }

  /** `after` is `before` with the frame written at the positions that follow `at`. */
  ghost predicate Written(before: seq<byte>, after: seq<byte>, at: nat, frame: seq<byte>) {
    && |before| == |after| && 0 < |before|
    && (forall k :: 0 <= k < |frame| ==> after[At(at + k, |before|)] == frame[k])
    && (forall i :: 0 <= i < |before| && Untouched(i, at, |frame|, |before|) ==> after[i] == before[i])
  }

  ghost predicate Untouched(i: int, at: nat, count: nat, n: nat)
    requires 0 < n
  {
    forall x: nat :: at <= x < at + count ==> At(x, n) != i
  }

  /** After writing a frame at the stream's end the newest buffer-full of the longer stream is in place. */
  lemma {:induction false} WriteExtendsWindow(
    before: seq<byte>, after: seq<byte>, stream: seq<byte>, frame: seq<byte>, from: int)
    requires |before| == |after| && |frame| <= |before| && Holds(before, stream, from)
    requires from <= |stream| + |frame| - |before|
    requires Written(before, after, |stream|, frame)
    ensures Holds(after, stream + frame, |stream| + |frame| - |before|)
    ensures Holds(after, stream, |stream| + |frame| - |before|)
  {
    hide At;
    var n, all := |before|, stream + frame;
    forall j | 0 <= j < |all| && |all| - n <= j ensures after[At(j, n)] == all[j] {
      if j >= |stream| {
        var k := j - |stream|;
        assert after[At(|stream| + k, n)] == frame[k];
      } else {
        OldByteUntouched(j, |stream|, |frame|, n);
      }
    }
    forall j | 0 <= j < |stream| && |all| - n <= j ensures after[At(j, n)] == stream[j] {
      assert all[j] == stream[j];
    }
  }

  /** A byte younger than one buffer-full is not overwritten. */
  lemma {:induction false} OldByteUntouched(j: nat, at: nat, count: nat, n: nat)
    requires 0 < n && j < at && at + count <= j + n
    ensures Untouched(At(j, n), at, count, n)
  {
    forall x: nat | at <= x < at + count ensures At(x, n) != At(j, n) { DistinctInWindow(j, x, n); }
  }

  lemma {:induction false} DistinctInWindow(a: nat, b: nat, n: int)
    requires 0 < n && a < b < a + n
    ensures At(a, n) != At(b, n)
  {
    if a % n == b % n {
      var qa, qb := a / n, b / n;
      assert b - a == n * (qb - qa);
      SmallMultiple(n, qb - qa);
    }
  }

  /** `t` with `part` copied over it from position `at`. */
  function Splice(t: seq<byte>, at: nat, part: seq<byte>): (r: seq<byte>)
    requires at + |part| <= |t|
    ensures |r| == |t|
  {
    t[..at] + part + t[at + |part|..]
  }

  /** The planned two-part copy, in terms of the linear position. */
  lemma {:induction false} PlannedCopyIsWritten(
    before: seq<byte>, after: seq<byte>, linear: nat, frame: seq<byte>, p: WritePlan)
    requires |before| == |after| && 0 < |before| <= U64_MAX && |frame| <= |before| && 0 < |frame|
    requires PlanCyclicWrite(|before|, At(linear, |before|), |frame|) == Success(p)
    requires after ==
             Splice(Splice(before, p.firstOffset, frame[..p.firstBytes]), p.secondOffset, frame[p.firstBytes..])
    ensures Written(before, after, linear, frame)
  {
    var n, count := |before|, |frame|;
    assert p.secondOffset == 0 && p.firstBytes + p.secondBytes == count && p.firstOffset + p.firstBytes <= n;
    forall x: nat | linear <= x < linear + count
      ensures At(x, n) == PlannedIndex(p, x - linear)
    {
      PlanIsCyclic(n, At(linear, n), count);
      ReducedSum(linear, x - linear, n);
    }
    hide At, PlanCyclicWrite;
    forall k | 0 <= k < count ensures after[At(linear + k, n)] == frame[k] {
      assert At(linear + k, n) == PlannedIndex(p, k);
    }
    forall i | 0 <= i < n && (p.firstOffset <= i < p.firstOffset + p.firstBytes || i < p.secondBytes)
      ensures !Untouched(i, linear, count, n)
    {
      var x := linear + (if i < p.secondBytes then p.firstBytes + i else i - p.firstOffset);
      assert At(x, n) == PlannedIndex(p, x - linear);
    }
  }

  /** A buffer cut into `count` notification parts. */
  function Part(size: u32, count: u32): u32 {
    if count == 0 then 0 else QuotientAtMost(size, count); size / count
  }

  /** The size is a whole number of blocks, and so is each of its equal parts. */
  predicate EqualParts(size: u32, count: u32) {
    count != 0 && size % count == 0 && size % WAVE_BLOCK_ALIGN == 0 && Part(size, count) % WAVE_BLOCK_ALIGN == 0
  }

  /** The sizes accepted are the multiples of the part count in whole blocks, and the parts make up the buffer. */
  lemma {:induction false} EqualPartsExactly(size: u32, count: u32)
    ensures EqualParts(size, count) <==> count != 0 && exists n: nat :: size == BlocksEach(n, count)
    ensures EqualParts(size, count) ==> size == Part(size, count) * count
  {
    if EqualParts(size, count) {
      var part := size / count;
      assert size == part * count;
      assert size == BlocksEach(part / WAVE_BLOCK_ALIGN, count);
    }
    if count != 0 && exists n: nat :: size == BlocksEach(n, count) {
      var n: nat :| size == BlocksEach(n, count);
      BlocksAreEqualParts(size, count, n);
    }
    hide BlocksEach, EqualParts;
  }

  lemma {:induction false} BlocksAreEqualParts(size: u32, count: u32, n: nat)
    requires count != 0 && size == BlocksEach(n, count)
    ensures EqualParts(size, count)
  {
    RemainderIs(size, count, n * WAVE_BLOCK_ALIGN, 0);
    assert size == WAVE_BLOCK_ALIGN * (n * count);
    RemainderIs(size, WAVE_BLOCK_ALIGN, n * count, 0);
  }

  /** `count` parts of n blocks each. */
  function BlocksEach(n: nat, count: nat): int { n * WAVE_BLOCK_ALIGN * count }

  lemma {:induction false} PartFits(size: u32, count: u32)
    requires 0 < count && 0 < size && size % count == 0
    ensures 0 < Part(size, count) <= size
  {
    assert size == count * (size / count);
    QuotientAtMost(size, count);
  }

  const KSSTATE_STOP: int := 0
  const KSSTATE_ACQUIRE: int := 1
  const KSSTATE_PAUSE: int := 2
  const KSSTATE_RUN: int := 3

  /** Which requests are states, which state each is, and from where it is allowed. */
  lemma {:induction false} StateRequests(requested: int, from: StreamState)
    ensures var to := ToRuntimeState(requested);
            && (to.Some? <==> KSSTATE_STOP <= requested <= KSSTATE_RUN)
            && (to.Some? ==>
                  && (requested == KSSTATE_STOP <==> to.value == Stop)
                  && (requested == KSSTATE_ACQUIRE <==> to.value == Acquire)
                  && (requested == KSSTATE_PAUSE <==> to.value == Pause)
                  && (requested == KSSTATE_RUN <==> to.value == Run)
                  && (AllowedTransition(from, to.value) <==>
                        match from
                        case Stop => requested <= KSSTATE_ACQUIRE
                        case Acquire => requested <= KSSTATE_PAUSE
                        case Pause => KSSTATE_ACQUIRE <= requested
                        case Run => KSSTATE_PAUSE <= requested))
  {
  }

  /** Kernel streaming states; any other number is refused. */
  function ToRuntimeState(requested: int): Option<StreamState> {
    if requested == KSSTATE_STOP then Some(Stop) else if requested == KSSTATE_ACQUIRE then Some(Acquire)
    else if requested == KSSTATE_PAUSE then Some(Pause) else if requested == KSSTATE_RUN then Some(Run) else None
  }

  // ----- what ticks leave behind -----

  /** The bytes of the ticks since the positions were last zeroed. */
  ghost function Flatten(log: seq<Delivery>): seq<byte> {
    if log == [] then [] else Flatten(log[..|log| - 1]) + DeliveredBytes(log[|log| - 1])
  }

  lemma {:induction false} FlattenAppend(log: seq<Delivery>, d: Delivery)
    ensures Flatten(log + [d]) == Flatten(log) + DeliveredBytes(d)
  {
    assert (log + [d])[..|log|] == log;
  }

  /** Within a session ring frames appear in strictly increasing order; everything logged is settled. */
  ghost predicate InOrder(log: seq<Delivery>, session: nat, cursor: nat) {
    && (forall i, j ::
          0 <= i < j < |log| && log[i].FromRing? && log[j].FromRing? && log[i].session == log[j].session ==>
            log[i].sequence < log[j].sequence)
    && (forall i :: 0 <= i < |log| && log[i].FromRing? ==>
          && |log[i].bytes| == TICK_BYTES && log[i].session <= session
          && (log[i].session == session ==> log[i].sequence < cursor))
  }

  /** Every ring entry is the frame its session produced under its sequence. */
  ghost predicate Genuine(log: seq<Delivery>, produced: map<nat, seq<Frame>>) {
    forall i :: 0 <= i < |log| && log[i].FromRing? ==> GenuineEntry(log[i], produced)
  }

  ghost predicate GenuineEntry(d: Delivery, produced: map<nat, seq<Frame>>) {
    d.FromRing? ==>
      d.session in produced && d.sequence < |produced[d.session]| && d.bytes == produced[d.session][d.sequence]
  }

  lemma {:induction false} GenuineGrows(log: seq<Delivery>, before: map<nat, seq<Frame>>, after: map<nat, seq<Frame>>)
    requires Genuine(log, before) && Grows(before, after)
    ensures Genuine(log, after)
  {
    forall i | 0 <= i < |log| && log[i].FromRing?
      ensures GenuineEntry(log[i], after)
    {
      assert GenuineEntry(log[i], before);
    }
  }

  lemma {:induction false} GenuineAppend(log: seq<Delivery>, d: Delivery, produced: map<nat, seq<Frame>>)
    requires Genuine(log, produced) && GenuineEntry(d, produced)
    ensures Genuine(log + [d], produced)
  {
  }

  /** How many entries of the log came from the ring of this session. */
  ghost function RingEntries(log: seq<Delivery>, session: nat): nat {
    if log == [] then 0
    else
      var d := log[|log| - 1];
      RingEntries(log[..|log| - 1], session) + if d.FromRing? && d.session == session then 1 else 0
  }

  /** While a session runs, its cursor has moved over the frames dropped, those in the log, and those that left it. */
  ghost predicate Counted(up: bool, cursor: nat, dropped: nat, unlogged: nat, log: seq<Delivery>, session: nat) {
    up ==> cursor == dropped + unlogged + RingEntries(log, session)
  }

  lemma {:induction false} EntriesAppend(log: seq<Delivery>, d: Delivery, session: nat)
    ensures RingEntries(log + [d], session)
         == RingEntries(log, session) + (if d.FromRing? && d.session == session then 1 else 0)
  {
    assert (log + [d])[..|log|] == log;
  }

  lemma {:induction false} CountedPull(
    up: bool, cursor: nat, dropped: nat, later: nat, droppedLater: nat, unlogged: nat, log: seq<Delivery>, session: nat,
      more: nat)
    requires Counted(up, cursor, dropped, unlogged, log, session)
    requires up ==> later == cursor + (droppedLater - dropped) + more
    ensures Counted(up, later, droppedLater, unlogged + more, log, session)
  {
  }

  lemma {:induction false} CountedAppend(
    up: bool, cursor: nat, dropped: nat, unlogged: nat, log: seq<Delivery>, session: nat, d: Delivery)
    requires Counted(up, cursor, dropped, unlogged, log, session)
    requires d.FromRing? ==> d.session == session && 0 < unlogged
    ensures Counted(up, cursor, dropped, unlogged - (if d.FromRing? then 1 else 0), log + [d], session)
  {
    EntriesAppend(log, d, session);
  }

  lemma {:induction false} CountedReset(
    up: bool, cursor: nat, dropped: nat, unlogged: nat, log: seq<Delivery>, session: nat)
    requires Counted(up, cursor, dropped, unlogged, log, session)
    ensures Counted(up, cursor, dropped, unlogged + RingEntries(log, session), [], session)
  {
  }

  lemma {:induction false} CountedDown(cursor: nat, dropped: nat, unlogged: nat, log: seq<Delivery>, session: nat)
    ensures Counted(false, cursor, dropped, unlogged, log, session)
  {
  }

  lemma {:induction false} CountedFresh(log: seq<Delivery>, session: nat)
    requires InOrder(log, session, 0)
    ensures Counted(true, 0, 0, 0, log, session)
  {
    NoEntries(log, session, 0);
  }

  /** A session that has not begun has left nothing in the log. */
  lemma {:induction false} NoEntries(log: seq<Delivery>, session: nat, cursor: nat)
    requires InOrder(log, session, cursor) && cursor == 0
    ensures RingEntries(log, session) == 0
  {
    if log != [] {
      assert InOrder(log[..|log| - 1], session, cursor);
      NoEntries(log[..|log| - 1], session, cursor);
      var d := log[|log| - 1];
      assert !(d.FromRing? && d.session == session);
    }
  }

  /** What happens beside a control call while the stream lock is free. */
  datatype Event = Tick | ConnectEvent(q: ConnectRequest, created: bool) | DisconnectEvent

  datatype PageOutcome = NoPages | NotMapped | Pages(mdl: nat)

  datatype NtStatus = NtSuccess | InvalidParameter | InsufficientResources | InvalidDeviceState

  class Stream {
    var mdl: Option<nat>
    var buffer: array?<byte>
    var bufferSize: u32
    var notificationsPerBuffer: u32
    var notificationEvent: Option<nat>
    var schedulerStarted: bool
    const frame: array<byte>
    const runtime: StreamRuntime
    ghost var freed: set<array<byte>>
    ghost var log: seq<Delivery>
    ghost var slack: int
    /** Frames of the running session that were pulled and are not, or no longer, in the log. */
    ghost var unlogged: nat

    /** The bytes of the cyclic buffer. */
    ghost function Content(): seq<byte>
      reads this, buffer
    {
      if buffer == null then [] else buffer[..]
    }

    /** What holds whenever the stream lock is free. */
    ghost predicate Valid()
      reads this, runtime, frame, buffer
    {
      && frame.Length == TICK_BYTES && buffer != frame && frame !in freed
      && (mdl.Some? <==> buffer != null)
      && (runtime.state != Stop ==> buffer != null)
      && (schedulerStarted ==> runtime.state == Run)
      && 0 <= slack <= TICK_BYTES && (slack == 0 || runtime.linear + TICK_BYTES > U64_MAX)
      && (buffer == null ==> bufferSize == 0 && runtime.View() == ZERO_POSITIONS && log == [] && slack == 0)
      && (buffer != null ==>
            && buffer !in freed && buffer.Length == bufferSize == runtime.buffer && TICK_BYTES <= bufferSize
            && runtime.blockAlign == WAVE_BLOCK_ALIGN && ClosedForm(runtime.View())
            && |Flatten(log)| == runtime.linear && Holds(buffer[..], Flatten(log), runtime.linear + slack - bufferSize))
    }

    /** The transport's memory is not the stream's, freed buffers included. */
    ghost predicate Apart(bridge: ControlBridge)
      reads this, bridge
    {
      && frame !in bridge.Footprint() && (buffer == null || buffer !in bridge.Footprint())
      && (forall a :: a in freed ==> a !in bridge.Footprint())
    }

    /** The stream beside its transport, but for the count of what was pulled. */
    ghost predicate Beside(bridge: ControlBridge)
      reads this, runtime, frame, buffer, bridge, bridge.Footprint()
    {
      && Valid() && bridge.Valid() && bridge.Accepted() && Apart(bridge)
      && InOrder(log, bridge.Epoch(), bridge.Cursor()) && Genuine(log, bridge.produced)
    }

    /** The stream beside its transport, whenever the stream lock is free. */
    ghost predicate Consistent(bridge: ControlBridge)
      reads this, runtime, frame, buffer, bridge, bridge.Footprint()
    {
      && Beside(bridge)
      && Counted(bridge.region != null, bridge.Cursor(), bridge.Dropped(), unlogged, log, bridge.session)
    }

    constructor ()
      ensures Valid() && buffer == null && !schedulerStarted && fresh(frame) && fresh(runtime) && freed == {}
      ensures log == []
    {
      mdl, buffer, bufferSize, notificationsPerBuffer, notificationEvent, schedulerStarted := None, null, 0, 0, None,
        false;
      frame := new byte[TICK_BYTES](i => 0);
      runtime := new StreamRuntime();
      freed, log, slack, unlogged := {}, [], 0, 0;
    }

    /** The two-part copy of a tick. */
    method WriteFrame(plan: WritePlan)
      requires buffer != null && buffer != frame && frame.Length == TICK_BYTES <= buffer.Length <= U64_MAX
      requires ClosedForm(runtime.View()) && runtime.buffer == buffer.Length
      requires PlanCyclicWrite(buffer.Length, runtime.cyclic, TICK_BYTES) == Success(plan)
      modifies buffer
      ensures Written(old(buffer[..]), buffer[..], runtime.linear, frame[..])
    {
      CopyBytes(buffer, plan.firstOffset, frame, 0, plan.firstBytes);
      ghost var half := buffer[..];
      if plan.secondBytes != 0 { CopyBytes(buffer, plan.secondOffset, frame, plan.firstBytes, plan.secondBytes); }
      assert frame[plan.firstBytes..plan.firstBytes + plan.secondBytes] == frame[..][plan.firstBytes..];
      assert frame[0..plan.firstBytes] == frame[..][..plan.firstBytes];
      assert plan.secondBytes == 0 ==> Splice(half, 0, []) == half;
      assert buffer[..] == Splice(half, plan.secondOffset, frame[..][plan.firstBytes..]);
      PlannedCopyIsWritten(old(buffer[..]), buffer[..], runtime.linear, frame[..], plan);
    }

    /** `OnSchedulerTick`, under the stream lock. */
    method OnSchedulerTick(bridge: ControlBridge) returns (ghost delivery: Delivery)
      requires Consistent(bridge)
      modifies `log, `slack, `unlogged, runtime, frame, buffer, bridge`produced, bridge.Footprint()
      ensures forall a :: a in freed ==> a[..] == old(a[..])
      ensures old(schedulerStarted) && old(runtime.linear) + TICK_BYTES <= U64_MAX ==>
                && log == old(log) + [delivery] && runtime.linear == old(runtime.linear) + TICK_BYTES
      ensures old(schedulerStarted) && old(runtime.linear) + TICK_BYTES > U64_MAX ==>
                log == old(log) && runtime.View() == old(runtime.View())
      ensures !old(schedulerStarted) ==>
                && log == old(log) && slack == old(slack) && runtime.View() == old(runtime.View())
                && Content() == old(Content())
      ensures runtime.state == old(runtime.state)
      ensures bridge.Carries(delivery)
      ensures old(schedulerStarted) ==> bridge.Answered(old(bridge.Machine()), delivery)
      ensures old(schedulerStarted) && old(runtime.linear) + TICK_BYTES <= U64_MAX ==> unlogged == old(unlogged)
      ensures !old(schedulerStarted) ==> unlogged == old(unlogged) && bridge.Machine() == old(bridge.Machine())
      ensures Consistent(bridge)
    {
      hide Holds, Flatten, ClosedForm, InOrder, Genuine, ControlBridge.Valid, ControlBridge.Accepted, Counted,
        ControlBridge.Answered;
      delivery := Silent;
      if !schedulerStarted || runtime.state != Run || buffer == null || bufferSize < TICK_BYTES { return; }
      delivery := PullFrame(bridge);
      assert buffer !in bridge.Footprint() + {bridge};
      CountedAppend(bridge.region != null, bridge.Cursor(), bridge.Dropped(), unlogged, log, bridge.session, delivery);
      PlaceFrame(delivery);
    }

    /** The scratch frame is cleared, then filled by the transport or left silent. */
    method PullFrame(bridge: ControlBridge) returns (ghost delivery: Delivery)
      requires Consistent(bridge)
      modifies `unlogged, frame, bridge`produced, bridge.Footprint()
      ensures forall a :: a in freed ==> a[..] == old(a[..])
      ensures frame[..] == DeliveredBytes(delivery)
      ensures unlogged == old(unlogged) + (if delivery.FromRing? then 1 else 0)
      ensures bridge.Answered(old(bridge.Machine()), delivery)
      ensures InOrder(log + [delivery], bridge.Epoch(), bridge.Cursor()) && Genuine(log + [delivery], bridge.produced)
      ensures bridge.Carries(delivery)
      ensures Consistent(bridge)
    {
      hide Holds, Flatten, ClosedForm, InOrder, Genuine, GenuineEntry, Grows, ControlBridge.Valid,
        ControlBridge.Accepted, Counted, ControlBridge.Answered;
      FillZeros(frame);
      ghost var cursor, dropped, produced := bridge.Cursor(), bridge.Dropped(), bridge.produced;
      var status;
      status, delivery := bridge.ConsumeFrame(frame);
      assert frame !in bridge.Footprint() + {bridge};
      if status != BridgeOk && status != Silence && status != Unavailable {
        // the frame would be cleared once more; an accepted connection has no other answer
        assert false;
      }
      InOrderGrows(log, delivery, bridge.Epoch(), cursor, bridge.Cursor());
      GenuineGrows(log, produced, bridge.produced);
      assert GenuineEntry(delivery, bridge.produced) by { DeliveryIsGenuine(delivery, bridge); }
      GenuineAppend(log, delivery, bridge.produced);
      ghost var more: nat := if delivery.FromRing? then 1 else 0;
      CountedPull(bridge.region != null, cursor, dropped, bridge.Cursor(), bridge.Dropped(), unlogged, log,
        bridge.session, more);
      Recount(unlogged + more, bridge);
    }

    ghost method Recount(n: nat, bridge: ControlBridge)
      requires Beside(bridge)
      requires Counted(bridge.region != null, bridge.Cursor(), bridge.Dropped(), n, log, bridge.session)
      modifies `unlogged
      ensures unlogged == n && Consistent(bridge)
    {
      hide Holds, Flatten, ClosedForm, ControlBridge.Valid, ControlBridge.Accepted, Counted, InOrder, Genuine;
      unlogged := n;
    }

    /** Ticks and transport changes that fall between two lock sections of a control call. */
    method Meanwhile(events: seq<Event>, bridge: ControlBridge)
      requires Consistent(bridge)
      modifies `log, `slack, `unlogged, runtime, frame, buffer, bridge, bridge.Footprint()
      ensures forall a :: a in freed ==> a[..] == old(a[..])
      ensures Consistent(bridge) && fresh(bridge.Footprint() - old(bridge.Footprint()))
      ensures runtime.state == old(runtime.state)
      ensures !schedulerStarted ==>
                && log == old(log) && slack == old(slack) && runtime.View() == old(runtime.View())
                && Content() == old(Content())
    {
      hide Holds, Flatten, ClosedForm, ControlBridge.Valid, ControlBridge.Accepted, Counted, Valid, InOrder, Genuine,
        Apart;
      for i := 0 to |events|
        invariant Consistent(bridge) && fresh(bridge.Footprint() - old(bridge.Footprint()))
        invariant runtime.state == old(runtime.state)
        invariant forall a :: a in freed ==> a[..] == old(a[..])
        invariant !schedulerStarted ==>
                    && log == old(log) && slack == old(slack) && runtime.View() == old(runtime.View())
                    && Content() == old(Content())
      {
        OneEvent(events[i], bridge);
      }
    }

    method OneEvent(event: Event, bridge: ControlBridge)
      requires Consistent(bridge)
      modifies `log, `slack, `unlogged, runtime, frame, buffer, bridge, bridge.Footprint()
      ensures forall a :: a in freed ==> a[..] == old(a[..])
      ensures Consistent(bridge) && fresh(bridge.Footprint() - old(bridge.Footprint()))
      ensures runtime.state == old(runtime.state)
      ensures !schedulerStarted ==>
                && log == old(log) && slack == old(slack) && runtime.View() == old(runtime.View())
                && Content() == old(Content())
    {
      hide Holds, Flatten, ClosedForm, ControlBridge.Valid, ControlBridge.Accepted, Counted, Valid, InOrder, Genuine,
        Apart;
      match event
      case Tick => var delivery := OnSchedulerTick(bridge);
      case ConnectEvent(q, created) => ConnectBeside(q, created, bridge);
      case DisconnectEvent => DisconnectBeside(bridge);
    }

    method ConnectBeside(q: ConnectRequest, created: bool, bridge: ControlBridge)
      requires Consistent(bridge)
      modifies `unlogged, bridge, bridge.Footprint()
      ensures forall a :: a in freed ==> a[..] == old(a[..])
      ensures Consistent(bridge) && fresh(bridge.Footprint() - old(bridge.Footprint()))
      ensures runtime.View() == old(runtime.View()) && Content() == old(Content())
    {
      hide Holds, Flatten, ClosedForm, ControlBridge.Valid, ControlBridge.Accepted, Counted, Valid, InOrder, Genuine;
      ghost var epoch, cursor, dropped, produced := bridge.Epoch(), bridge.Cursor(), bridge.Dropped(), bridge.produced;
      var failure := bridge.Connect(q, created);
      GenuineGrows(log, produced, bridge.produced);
      if failure.None? {
        CountedFresh(log, epoch);
        Recount(0, bridge);
      }
      assert failure.Some? ==> bridge.Epoch() == epoch && bridge.Cursor() == cursor && bridge.Dropped() == dropped;
    }

    method DisconnectBeside(bridge: ControlBridge)
      requires Consistent(bridge)
      modifies bridge, bridge.Footprint()
      ensures forall a :: a in freed ==> a[..] == old(a[..])
      ensures Consistent(bridge) && fresh(bridge.Footprint() - old(bridge.Footprint()))
      ensures runtime.View() == old(runtime.View()) && Content() == old(Content())
    {
      hide Holds, Flatten, ClosedForm, ControlBridge.Valid, ControlBridge.Accepted, Counted, Valid, InOrder, Genuine;
      NewEpoch(log, bridge.Epoch(), bridge.Cursor());
      CountedDown(0, 0, unlogged, log, bridge.session);
      bridge.Disconnect();
    }

    // ----- control calls; between their lock sections anything in a gap may happen -----

    /** `CancelSchedulerAndFlush`: no tick that starts later passes its first check. */
    method CancelSchedulerAndFlush(gap: seq<Event>, bridge: ControlBridge)
      requires Consistent(bridge)
      modifies `schedulerStarted, `log, `slack, `unlogged, runtime, frame, buffer, bridge, bridge.Footprint()
      ensures forall a :: a in freed ==> a[..] == old(a[..])
      ensures Consistent(bridge) && fresh(bridge.Footprint() - old(bridge.Footprint()))
      ensures !schedulerStarted && runtime.View() == old(runtime.View()) && log == old(log) && slack == old(slack)
      ensures Content() == old(Content())
    {
      hide Holds, Flatten, ClosedForm, ControlBridge.Valid, ControlBridge.Accepted, Counted, InOrder, Genuine;
      schedulerStarted := false;
      Meanwhile(gap, bridge);
    }

    /** `SetState`: check under the lock, cancel outside it, change under the lock. */
    method SetState(requested: int, gap: seq<Event>, cancelGap: seq<Event>, bridge: ControlBridge)
      returns (status: NtStatus)
      requires Consistent(bridge)
      modifies this, runtime, frame, buffer, bridge, bridge.Footprint()
      ensures Consistent(bridge) && fresh(bridge.Footprint() - old(bridge.Footprint()))
      ensures mdl == old(mdl) && buffer == old(buffer) && freed == old(freed)
      ensures status == InvalidParameter <==> !(KSSTATE_STOP <= requested <= KSSTATE_RUN)
      ensures status == NtSuccess <==>
                && KSSTATE_STOP <= requested <= KSSTATE_RUN && (requested == KSSTATE_STOP || buffer != null)
                && match old(runtime.state)
                   case Stop => requested <= KSSTATE_ACQUIRE
                   case Acquire => requested <= KSSTATE_PAUSE
                   case Pause => KSSTATE_ACQUIRE <= requested
                   case Run => KSSTATE_PAUSE <= requested
      ensures status == NtSuccess ==>
                && (requested == KSSTATE_STOP <==> runtime.state == Stop)
                && (requested == KSSTATE_ACQUIRE <==> runtime.state == Acquire)
                && (requested == KSSTATE_PAUSE <==> runtime.state == Pause)
                && (requested == KSSTATE_RUN <==> runtime.state == Run)
                && (schedulerStarted <==> runtime.state == Run && (old(runtime.state) != Run || old(schedulerStarted)))
                && (runtime.state == Stop ==>
                      && runtime.linear == 0 && runtime.cyclic == 0 && runtime.accumulator == 0 && runtime.due == 0
                      && log == [] && slack == 0)
      ensures status == NtSuccess || status == InvalidParameter || status == InvalidDeviceState
      ensures status != NtSuccess ==> runtime.state == old(runtime.state) && schedulerStarted == old(schedulerStarted)
      ensures forall a :: a in freed ==> a[..] == old(a[..])
    {
      hide Holds, Flatten, ClosedForm, ControlBridge.Valid, ControlBridge.Accepted, Counted, InOrder, Genuine,
        ToRuntimeState, AllowedTransition, Apart;
      StateRequests(requested, runtime.state);
      var target := ToRuntimeState(requested);
      if target.None? { return InvalidParameter; }
      var next := target.value;
      var current := runtime.state;
      var bufferReady := mdl.Some? && buffer != null && bufferSize >= TICK_BYTES;
      var transitionAllowed := AllowedTransition(current, next);
      Meanwhile(gap, bridge);
      if next != Stop && !bufferReady { return InvalidDeviceState; }
      if !transitionAllowed { return InvalidDeviceState; }
      if current == Run && next != Run { CancelSchedulerAndFlush(cancelGap, bridge); }
      status := ChangeState(current, next, bridge);
    }

    /** The second lock section of `SetState`. */
    method ChangeState(current: StreamState, next: StreamState, bridge: ControlBridge) returns (status: NtStatus)
      requires Consistent(bridge) && runtime.state == current && (next != Stop ==> buffer != null)
      requires current == Run && next != Run ==> !schedulerStarted
      modifies `schedulerStarted, `log, `slack, `unlogged, runtime
      ensures Consistent(bridge)
      ensures status == (if AllowedTransition(current, next) then NtSuccess else InvalidDeviceState)
      ensures runtime.View() ==
              (if status == NtSuccess then WithState(old(runtime.View()), next) else old(runtime.View()))
      ensures schedulerStarted == (old(schedulerStarted) || (status == NtSuccess && current != Run && next == Run))
      ensures status == NtSuccess && next == Stop ==> log == [] && slack == 0
    {
      hide Holds, Flatten, ClosedForm, ControlBridge.Valid, ControlBridge.Accepted, Counted, InOrder, Genuine,
        RingEntries, AllowedTransition;
      var changed := runtime.SetState(next);
      if changed != StreamOk { return InvalidDeviceState; }
      if current != Run && next == Run { schedulerStarted := true; }
      if next == Stop { ClearLog(bridge); }
      status := NtSuccess;
    }

    /** The stream is stopped and its positions are zero: what was logged belongs to no position any more. */
    ghost method ClearLog(bridge: ControlBridge)
      requires bridge.Valid() && bridge.Accepted() && Apart(bridge)
      requires InOrder(log, bridge.Epoch(), bridge.Cursor()) && Genuine(log, bridge.produced)
      requires Counted(bridge.region != null, bridge.Cursor(), bridge.Dropped(), unlogged, log, bridge.session)
      requires frame.Length == TICK_BYTES && buffer != frame && frame !in freed && (mdl.Some? <==> buffer != null)
      requires !schedulerStarted && runtime.state == Stop && runtime.linear == 0
      requires buffer == null ==> bufferSize == 0 && runtime.View() == ZERO_POSITIONS
      requires buffer != null ==>
                 && buffer !in freed && buffer.Length == bufferSize == runtime.buffer && TICK_BYTES <= bufferSize
                 && runtime.blockAlign == WAVE_BLOCK_ALIGN && ClosedForm(runtime.View())
      modifies `log, `slack, `unlogged
      ensures Consistent(bridge) && log == [] && slack == 0
    {
      hide Holds, Flatten, ClosedForm, ControlBridge.Valid, ControlBridge.Accepted, Counted, InOrder, Genuine,
        RingEntries;
      EmptyLog(bridge.Epoch(), bridge.Cursor(), bridge.produced);
      if buffer != null { EmptyStream(buffer[..], 0 - bufferSize); }
      CountedReset(bridge.region != null, bridge.Cursor(), bridge.Dropped(), unlogged, log, bridge.session);
      ghost var n := unlogged + RingEntries(log, bridge.session);
      log, slack := [], 0;
      Recount(n, bridge);
    }

    /** `AllocateAudioBuffer`. */
    method AllocateAudioBuffer(requested: u32, pages: PageOutcome, gap: seq<Event>, bridge: ControlBridge)
      returns (status: NtStatus)
      requires Consistent(bridge)
      modifies this, runtime, frame, buffer, bridge, bridge.Footprint()
      ensures Consistent(bridge) && fresh(bridge.Footprint() - old(bridge.Footprint())) && freed == old(freed)
      ensures status == NtSuccess <==> TICK_BYTES <= requested && old(mdl).None? && pages.Pages?
      ensures status == NtSuccess ==>
                && mdl == Some(pages.mdl) && buffer != null && fresh(buffer)
                && bufferSize == requested - requested % WAVE_BLOCK_ALIGN
                && runtime.View() == Initialized(bufferSize, WAVE_BLOCK_ALIGN, bufferSize) && !schedulerStarted
                && log == []
      ensures status != NtSuccess ==> mdl == old(mdl) && buffer == old(buffer)
      ensures forall a :: a in freed ==> a[..] == old(a[..])
    {
      hide Holds, ControlBridge.Valid, ControlBridge.Accepted, Counted, InOrder, Genuine;
      if requested < TICK_BYTES || mdl.Some? { return InvalidParameter; }
      var size := requested - requested % WAVE_BLOCK_ALIGN;
      if !pages.Pages? { return InsufficientResources; }
      Meanwhile(gap, bridge);
      var mapped := new byte[size](i => 0);
      Attach(mapped, pages.mdl, bridge);
      status := NtSuccess;
    }

    /** The lock section of `AllocateAudioBuffer`. */
    method Attach(mapped: array<byte>, pages: nat, bridge: ControlBridge)
      requires Consistent(bridge) && buffer == null && TICK_BYTES <= mapped.Length <= U32_MAX
      requires mapped.Length % WAVE_BLOCK_ALIGN == 0
      requires mapped != frame && mapped !in freed && mapped !in bridge.Footprint()
      modifies this, runtime
      ensures Consistent(bridge) && mdl == Some(pages) && buffer == mapped && bufferSize == mapped.Length
      ensures freed == old(freed)
      ensures runtime.View() == Initialized(bufferSize, WAVE_BLOCK_ALIGN, bufferSize) && !schedulerStarted && log == []
    {
      hide Holds, ControlBridge.Valid, ControlBridge.Accepted, Counted, ClosedForm, Flatten, InOrder, Genuine;
      mdl, buffer, bufferSize, notificationsPerBuffer := Some(pages), mapped, mapped.Length, 0;
      runtime.Assign(Initialized(mapped.Length, WAVE_BLOCK_ALIGN, mapped.Length));
      FreshBuffer(mapped.Length, mapped[..]);
      log := [];
    }

    /** `AllocateBufferWithNotification`: the same buffer, with notifications at equal parts of it. */
    method AllocateBufferWithNotification(
      count: u32, requested: u32, pages: PageOutcome, gap: seq<Event>, lateGap: seq<Event>,
        bridge: ControlBridge) returns (status: NtStatus)
      requires Consistent(bridge)
      modifies this, runtime, frame, buffer, bridge, bridge.Footprint()
      ensures Consistent(bridge) && fresh(bridge.Footprint() - old(bridge.Footprint())) && freed == old(freed)
      ensures status == NtSuccess <==>
                TICK_BYTES <= requested && EqualParts(requested, count) && old(mdl).None? && pages.Pages?
      ensures status == NtSuccess ==>
                && mdl == Some(pages.mdl) && buffer != null && fresh(buffer) && bufferSize == requested
                && notificationsPerBuffer == count
                && runtime.View() == Initialized(requested, WAVE_BLOCK_ALIGN, Part(requested, count))
                && !schedulerStarted && log == []
      ensures status != NtSuccess ==> mdl == old(mdl) && buffer == old(buffer)
      ensures forall a :: a in freed ==> a[..] == old(a[..])
    {
      hide Holds, Flatten, ControlBridge.Valid, ControlBridge.Accepted, Counted, InOrder, Genuine, Apart, ClosedForm,
        Part;
      if count == 0 || requested < TICK_BYTES || requested % count != 0 || requested % WAVE_BLOCK_ALIGN != 0 ||
        mdl.Some? {
        return InvalidParameter;
      }
      PartFits(requested, count);
      var notificationBytes := Part(requested, count);
      if GeometryStatus(requested, WAVE_BLOCK_ALIGN, notificationBytes) != StreamOk { return InvalidParameter; }
      status := AllocateAudioBuffer(requested, pages, gap, bridge);
      if status != NtSuccess { return; }
      Meanwhile(lateGap, bridge);
      SetNotification(requested, count, notificationBytes, bridge);
    }

    /** The last lock section of `AllocateBufferWithNotification`. */
    method SetNotification(size: u32, count: u32, notificationBytes: u32, bridge: ControlBridge)
      requires Consistent(bridge) && buffer != null && bufferSize == size && !schedulerStarted && log == []
      requires runtime.View() == Initialized(size, WAVE_BLOCK_ALIGN, size)
      requires GeometryStatus(size, WAVE_BLOCK_ALIGN, notificationBytes) == StreamOk
      modifies runtime, `notificationsPerBuffer
      ensures Consistent(bridge) && notificationsPerBuffer == count
      ensures runtime.View() == Initialized(size, WAVE_BLOCK_ALIGN, notificationBytes)
    {
      hide Holds, Flatten, ControlBridge.Valid, ControlBridge.Accepted, Counted, ClosedForm, InOrder, Genuine;
      var status := runtime.Initialize(size, WAVE_BLOCK_ALIGN, notificationBytes);
      notificationsPerBuffer := count;
    }

    /** `FreeAudioBuffer`: cancel, detach under the lock, only then unmap. */
    method FreeAudioBuffer(owned: Option<nat>, gap: seq<Event>, unmapGap: seq<Event>, bridge: ControlBridge)
      requires Consistent(bridge)
      modifies this, runtime, frame, buffer, bridge, bridge.Footprint()
      ensures Consistent(bridge) && fresh(bridge.Footprint() - old(bridge.Footprint()))
      ensures owned.None? ==>
                && mdl == old(mdl) && buffer == old(buffer) && schedulerStarted == old(schedulerStarted)
                && freed == old(freed)
      ensures owned.Some? ==> !schedulerStarted
      ensures owned.Some? && owned == old(mdl) ==>
                && buffer == null && mdl.None? && runtime.View() == ZERO_POSITIONS && old(buffer) != null
                && freed == old(freed) + {old(buffer)}
      ensures owned.Some? && owned != old(mdl) ==>
                mdl == old(mdl) && buffer == old(buffer) && runtime.View() == old(runtime.View()) && freed == old(freed)
      ensures forall a :: a in old(freed) ==> a[..] == old(a[..])
    {
      hide Holds, Flatten, ClosedForm, ControlBridge.Valid, ControlBridge.Accepted, Counted, InOrder, Genuine;
      if owned.None? { return; }
      CancelSchedulerAndFlush(gap, bridge);
      if owned != mdl { return; }
      ghost var mapped := buffer;
      Detach(bridge);
      Meanwhile(unmapGap, bridge);
      Unmap(mapped, bridge);
    }

    ghost method Unmap(mapped: array<byte>, bridge: ControlBridge)
      requires Consistent(bridge) && buffer == null && mapped != frame && mapped !in bridge.Footprint()
      modifies `freed
      ensures Consistent(bridge) && freed == old(freed) + {mapped}
    {
      hide Holds, Flatten, ClosedForm, ControlBridge.Valid, ControlBridge.Accepted, Counted, InOrder, Genuine;
      freed := freed + {mapped};
    }

    /** The lock section of `FreeAudioBuffer`: after it no tick can reach the buffer. */
    method Detach(bridge: ControlBridge)
      requires Consistent(bridge) && buffer != null && !schedulerStarted
      modifies this, runtime
      ensures Consistent(bridge) && buffer == null && mdl.None? && runtime.View() == ZERO_POSITIONS
      ensures freed == old(freed) && !schedulerStarted
    {
      hide Holds, Flatten, ClosedForm, ControlBridge.Valid, ControlBridge.Accepted, Counted, InOrder, Genuine,
        RingEntries;
      EmptyLog(bridge.Epoch(), bridge.Cursor(), bridge.produced);
      buffer, mdl, bufferSize, notificationsPerBuffer, notificationEvent := null, None, 0, 0, None;
      runtime.Assign(ZERO_POSITIONS);
      CountedReset(bridge.region != null, bridge.Cursor(), bridge.Dropped(), unlogged, log, bridge.session);
      ghost var n := unlogged + RingEntries(log, bridge.session);
      log, slack := [], 0;
      Recount(n, bridge);
    }

    /** The tail of the tick: cyclic write, then the positions. */
    method PlaceFrame(ghost delivery: Delivery)
      requires Valid() && schedulerStarted && frame[..] == DeliveredBytes(delivery)
      requires delivery.FromRing? ==> 0 < unlogged
      modifies `log, `slack, `unlogged, runtime, buffer
      ensures Valid() && runtime.state == old(runtime.state)
      ensures log == (if old(runtime.linear) + TICK_BYTES <= U64_MAX then old(log) + [delivery] else old(log))
      ensures old(runtime.linear) + TICK_BYTES <= U64_MAX ==> runtime.linear == old(runtime.linear) + TICK_BYTES
      ensures old(runtime.linear) + TICK_BYTES > U64_MAX ==> runtime.View() == old(runtime.View())
      ensures unlogged ==
              old(unlogged) - (if old(runtime.linear) + TICK_BYTES <= U64_MAX && delivery.FromRing? then 1 else 0)
    {
      hide Holds, Flatten, Written, PlanCyclicWrite, Advance, AdvanceDefined, ClosedForm;
      TickAdvance(runtime.View());
      var plan := PlanCyclicWrite(bufferSize, runtime.cyclic, TICK_BYTES);
      if plan.Failure? { return; }
      WriteFrame(plan.value);
      WriteExtendsWindow(old(buffer[..]), buffer[..], Flatten(log), frame[..], runtime.linear + slack - bufferSize);
      var advanced, due := runtime.AdvancePosition(TICK_BYTES);
      if advanced == StreamOk {
        FlattenAppend(log, delivery);
        log := log + [delivery];
        if delivery.FromRing? { unlogged := unlogged - 1; }
      } else {
        slack := TICK_BYTES;
      }
    }
  }

  // ----- end to end -----

  predicate TickSized(log: seq<Delivery>) { forall i :: 0 <= i < |log| ==> |DeliveredBytes(log[i])| == TICK_BYTES }

  lemma {:induction false} FlattenLength(log: seq<Delivery>)
    requires TickSized(log)
    ensures |Flatten(log)| == TICK_BYTES * |log|
  {
    if log != [] { FlattenLength(log[..|log| - 1]); }
  }

  /** Byte j of the stream is byte j % 1920 of tick j / 1920. */
  lemma {:induction false} FlattenIndex(log: seq<Delivery>, j: nat)
    requires TickSized(log) && j < |Flatten(log)|
    ensures j / TICK_BYTES < |log| && Flatten(log)[j] == DeliveredBytes(log[j / TICK_BYTES])[j % TICK_BYTES]
  {
    FlattenLength(log);
    var init := log[..|log| - 1];
    FlattenLength(init);
    if j < |Flatten(init)| { FlattenIndex(init, j); }
  }

  /**
   Whenever the stream lock is free: the newest buffer-full of the endpoint's byte stream is in the cyclic
   buffer (short of one tick once the linear position can no longer advance), every byte comes from the
   frame of its tick, each such frame is silence or exactly a frame its session produced, and ring frames of a
   session are in order.
   */
  lemma {:induction false} EndpointContent(s: Stream, bridge: ControlBridge, j: nat)
    requires s.Consistent(bridge) && s.buffer != null
    requires j < s.runtime.linear && s.runtime.linear + s.slack - s.bufferSize <= j
    ensures s.runtime.linear == TICK_BYTES * |s.log| && j / TICK_BYTES < |s.log|
    ensures s.buffer[..][j % s.bufferSize] == DeliveredBytes(s.log[j / TICK_BYTES])[j % TICK_BYTES]
    ensures s.slack == 0 || s.runtime.linear + TICK_BYTES > U64_MAX
    ensures forall a :: 0 <= a < |s.log| && s.log[a].FromRing? ==>
              var d := s.log[a];
              && d.session in bridge.produced && d.sequence < |bridge.produced[d.session]|
              && d.bytes == bridge.produced[d.session][d.sequence]
    ensures bridge.region != null ==>
              && bridge.session in bridge.produced && bridge.produced[bridge.session] <= bridge.region.m.frames
              && forall a :: 0 <= a < |s.log| && s.log[a].FromRing? && s.log[a].session == bridge.session ==>
                   && s.log[a].sequence < |bridge.region.m.frames|
                   && s.log[a].bytes == bridge.region.m.frames[s.log[a].sequence]
    ensures bridge.region != null ==>
              bridge.Cursor() == bridge.Dropped() + s.unlogged + RingEntries(s.log, bridge.session)
    ensures forall a, b ::
              && 0 <= a < b < |s.log| && s.log[a].FromRing? && s.log[b].FromRing?
              && s.log[a].session == s.log[b].session ==>
                s.log[a].sequence < s.log[b].sequence
  {
    if bridge.region != null { ProducedIsReal(bridge); }
    hide ControlBridge.Valid, ClosedForm;
    forall a | 0 <= a < |s.log| && s.log[a].FromRing? ensures GenuineEntry(s.log[a], bridge.produced) { }
    assert TickSized(s.log);
    FlattenLength(s.log);
    FlattenIndex(s.log, j);
    assert s.buffer[..][At(j, s.bufferSize)] == Flatten(s.log)[j];
  }

  /** A started scheduler means a running stream over a live buffer of exactly the advertised size. */
  lemma {:induction false} StartedMeansLive(s: Stream)
    requires s.Valid() && s.schedulerStarted
    ensures s.runtime.state == Run && s.buffer != null && s.buffer !in s.freed && s.mdl.Some?
    ensures s.buffer.Length == s.bufferSize == s.runtime.buffer && TICK_BYTES <= s.bufferSize
    ensures s.runtime.cyclic == s.runtime.linear % s.bufferSize
  {
    hide Holds, Flatten;
  }

  /** The running session's history is what its region's producer has begun. */
  lemma {:induction false} ProducedIsReal(bridge: ControlBridge)
    requires bridge.Valid() && bridge.region != null
    ensures bridge.session in bridge.produced && bridge.produced[bridge.session] <= bridge.region.m.frames
  {
    hide Reachable, Sized;
  }

  lemma {:induction false} DeliveryIsGenuine(d: Delivery, bridge: ControlBridge)
    requires bridge.Carries(d)
    ensures GenuineEntry(d, bridge.produced)
  {
  }

  lemma {:induction false} EmptyLog(epoch: nat, cursor: nat, produced: map<nat, seq<Frame>>)
    ensures InOrder([], epoch, cursor) && Genuine([], produced)
  {
  }

  lemma {:induction false} EmptyStream(buffer: seq<byte>, from: int)
    requires |buffer| > 0
    ensures Flatten([]) == [] && Holds(buffer, Flatten([]), from)
  {
  }

  /** A freshly zeroed buffer holds the empty stream. */
  lemma {:induction false} FreshBuffer(size: u32, buffer: seq<byte>)
    requires TICK_BYTES <= size == |buffer| && size % WAVE_BLOCK_ALIGN == 0
    ensures ClosedForm(Initialized(size, WAVE_BLOCK_ALIGN, size))
    ensures Flatten([]) == [] && Holds(buffer, Flatten([]), 0 - size)
  {
    ZeroDivides(size);
  }

  lemma {:induction false} NewEpoch(log: seq<Delivery>, epoch: nat, cursor: nat)
    requires InOrder(log, epoch, cursor)
    ensures InOrder(log, epoch + 1, 0)
    ensures cursor == 0 ==> InOrder(log, epoch, 0)
  {
  }

  /** Advancing a running stream by one tick succeeds exactly while the linear position fits. */
  lemma {:induction false} TickAdvance(p: Positions)
    requires ClosedForm(p) && p.state.Run? && p.blockAlign == WAVE_BLOCK_ALIGN && TICK_BYTES <= p.buffer
    ensures p.cyclic < p.buffer && p.cyclic == At(p.linear, p.buffer)
    ensures PlanCyclicWrite(p.buffer, p.cyclic, TICK_BYTES).Success? && AdvanceDefined(p, TICK_BYTES)
    ensures var (status, q, due) := Advance(p, TICK_BYTES);
            if p.linear + TICK_BYTES <= U64_MAX then
              && status == StreamOk
              && q == p.(linear := p.linear + TICK_BYTES, cyclic := q.cyclic,
                         accumulator := q.accumulator, due := q.due)
            else
              status != StreamOk && q == p
  {
    assert TICK_BYTES % WAVE_BLOCK_ALIGN == 0;
    AdvanceKeepsClosedForm(p, TICK_BYTES);
    hide Advance;
  }

  /** Logging the newest delivery, or nothing, keeps the order when the cursor has moved past it. */
  lemma {:induction false} InOrderGrows(log: seq<Delivery>, d: Delivery, session: nat, before: nat, after: nat)
    requires InOrder(log, session, before) && before <= after && |DeliveredBytes(d)| == TICK_BYTES
    requires d.FromRing? ==> d.session == session && before <= d.sequence < after
    ensures InOrder(log, session, after) && InOrder(log + [d], session, after)
  {
    var all := log + [d];
    forall i, j | 0 <= i < j < |all| && all[i].FromRing? && all[j].FromRing? && all[i].session == all[j].session
      ensures all[i].sequence < all[j].sequence
    {
      assert all[i] == log[i];
      if j < |log| { assert all[j] == log[j]; }
    }
  }

  method CopyBytes(target: array<byte>, at: nat, source: array<byte>, from: nat, count: nat)
    requires target != source && at + count <= target.Length && from + count <= source.Length
    modifies target
    ensures target[..] == Splice(old(target[..]), at, source[from..from + count])
  {
    for i := 0 to count
      invariant forall k :: at <= k < at + i ==> target[k] == source[k - at + from]
      invariant forall k :: 0 <= k < target.Length && !(at <= k < at + i) ==> target[k] == old(target[k])
    {
      target[at + i] := source[from + i];
    }
    ghost var spliced := Splice(old(target[..]), at, source[from..from + count]);
    assert |spliced| == target.Length && forall k :: 0 <= k < target.Length ==> target[k] == spliced[k];
  }
}
