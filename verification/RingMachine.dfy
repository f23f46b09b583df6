/**
 The lock-free ring as a step machine. Every interlocked access and every payload byte copied is one
 step; the two endpoints interleave freely under sequential consistency. The fields `frames`, `newest`,
 `calls` and the `entry` values are history: no branch of either endpoint reads them.
 */
module RingMachine {
  import opened Words
  import opened Protocol

  const SNAPSHOT_ATTEMPTS: nat := 8

  type Frame = seq<byte>

  /** The part of a validated header both endpoints rely on. */
  datatype Geometry = Geometry(generation: u64, capacity: u32, frameBytes: nat)

  predicate ValidGeometry(g: Geometry) { 1 <= g.generation && 1 <= g.capacity && 1 <= g.frameBytes }

  /** Byte offset of a slot in the audio area, `slot * frameBytes`, as a sum. */
  function Offset(slot: nat, frameBytes: nat): (r: nat) {
    if slot == 0 then 0 else Offset(slot - 1, frameBytes) + frameBytes
  }

  lemma {:induction false} OffsetIsProduct(slot: nat, frameBytes: nat)
    ensures Offset(slot, frameBytes) == slot * frameBytes
  {
    if slot > 0 {
      OffsetIsProduct(slot - 1, frameBytes);
      assert slot * frameBytes == (slot - 1) * frameBytes + frameBytes;
    }
  }

  lemma {:induction false} OffsetOrder(slot: nat, limit: nat, frameBytes: nat)
    requires slot < limit
    ensures Offset(slot, frameBytes) + frameBytes <= Offset(limit, frameBytes)
  {
    if slot < limit - 1 { OffsetOrder(slot, limit - 1, frameBytes); }
  }

  function Zeros(n: nat): Frame { seq(n, i => 0) }

  datatype Memory = Memory(
    generation: u64, producer: u64, consumer: u64, drops: u64, underruns: u64,
    stamps: seq<u64>, audio: seq<byte>)

  /** Program counter of the producer; the frame in progress is the last one of `frames`. */
  datatype ProducerPc =
    | PIdle
    | PCopy(written: nat)
    | PCommitStore
    | PPublishGeneration
    | PPublishCurrent
    | PPublishConsumer(current: u64)
    | PPublishStore
    | PStuck

  /** Program counter of `ConsumeOneRingFrame`, with the locals that are live at each point. */
  datatype ConsumerPc =
    | CIdle
    | CSnapGeneration(attempt: nat)
    | CSnapProducer(attempt: nat, g: u64)
    | CSnapConsumer(attempt: nat, g: u64, p: u64)
    | CSnapDrops(attempt: nat, g: u64, p: u64, c: u64)
    | CSnapUnderruns(attempt: nat, g: u64, p: u64, c: u64, d: u64)
    | CSnapRecheck(attempt: nat, snap: Cursors)
    | CSkipGeneration(w: Window)
    | CSkipCurrent(w: Window)
    | CSkipProducer(w: Window, current: u64)
    | CSkipStore(w: Window)
    | CRecordDrops(w: Window)
    | CRecordUnderrun(w: Window)
    | CStampBefore(w: Window)
    | CCopy(w: Window, out: Frame)
    | CDoneGeneration(w: Window, out: Frame)
    | CDoneCurrent(w: Window, out: Frame)
    | CDoneProducer(w: Window, out: Frame, current: u64)
    | CDoneStore(w: Window, out: Frame)

  datatype ConsumeStatus =
    | Ok | Underrun | SlotUnstable
    | InvalidHeader | GenerationMismatch | RegionTooSmall | OutputSizeMismatch
    | CursorReadFailed | RingPlanFailed | CursorPublishFailed | SequenceOverflow

  /** What one call returned, and where both endpoints stood when it started and when it looked. */
  datatype Call = Call(
    status: ConsumeStatus, sequence: u64, dropped: u64, slot: u32, silence: bool, output: Frame,
    startProducer: u64, startConsumer: u64, snapProducer: u64, endBegun: nat)

  datatype State = State(
    geo: Geometry, mem: Memory,
    ppc: ProducerPc, frames: seq<Frame>, newest: seq<int>,
    cpc: ConsumerPc, calls: seq<Call>, entryProducer: u64, entryConsumer: u64)

  function SlotOf(g: Geometry, sequence: int): (slot: nat)
    requires 0 < g.capacity
    ensures slot < g.capacity
  {
    sequence % g.capacity
  }

  /** Everything an index expression of a step relies on. */
  ghost predicate Sized(s: State) {
    && ValidGeometry(s.geo)
    && |s.mem.stamps| == s.geo.capacity
    && |s.mem.audio| == Offset(s.geo.capacity, s.geo.frameBytes)
    && |s.newest| == s.geo.capacity
    && |s.frames| <= MAX_FRAME_SEQUENCE + 1
    && (forall n :: 0 <= n < |s.frames| ==> |s.frames[n]| == s.geo.frameBytes)
    && (!s.ppc.PIdle? ==> 0 < |s.frames|)
  }

  // ----- the shared section after CONNECT: zeroed, then the cursor session initialised -----

  ghost predicate Init(s: State) {
    && ValidGeometry(s.geo)
    && s.mem == Memory(s.geo.generation, 0, 0, 0, 0,
                       seq(s.geo.capacity, i => 0),
                       Zeros(Offset(s.geo.capacity, s.geo.frameBytes)))
    && s.ppc == PIdle && s.frames == [] && s.newest == seq(s.geo.capacity, i => -1)
    && s.cpc == CIdle && s.calls == [] && s.entryProducer == 0 && s.entryConsumer == 0
  }

  // ----- producer: BeginSlotWrite, payload, CommitSlotWrite, PublishProducerSequence -----

  function ByteIndex(g: Geometry, sequence: nat, i: nat): nat
    requires ValidGeometry(g) && i < g.frameBytes
    ensures ByteIndex(g, sequence, i) < Offset(g.capacity, g.frameBytes)
  {
    OffsetOrder(SlotOf(g, sequence), g.capacity, g.frameBytes);
    Offset(SlotOf(g, sequence), g.frameBytes) + i
  }

  ghost function ProducerStep(s: State, frame: Frame): (t: State)
    requires Sized(s) && |frame| == s.geo.frameBytes
    ensures Sized(t)
  {
    var n := |s.frames|;
    match s.ppc
    case PIdle =>
      if !CanEncode(n) then s
      else
        var slot := SlotOf(s.geo, n);
        s.(mem := s.mem.(stamps := s.mem.stamps[slot := WritingStamp(n)]),
           frames := s.frames + [frame], newest := s.newest[slot := n], ppc := PCopy(0))
    case PCopy(i) =>
      if i < s.geo.frameBytes then
        s.(mem := s.mem.(audio := s.mem.audio[ByteIndex(s.geo, n - 1, i) := s.frames[n - 1][i]]), ppc := PCopy(i + 1))
      else if s.mem.stamps[SlotOf(s.geo, n - 1)] != WritingStamp(n - 1) then s.(ppc := PStuck)
      else s.(ppc := PCommitStore)
    case PCommitStore =>
      s.(mem := s.mem.(stamps := s.mem.stamps[SlotOf(s.geo, n - 1) := StableStamp(n - 1)]), ppc := PPublishGeneration)
    case PPublishGeneration =>
      if s.mem.generation != s.geo.generation then s.(ppc := PStuck) else s.(ppc := PPublishCurrent)
    case PPublishCurrent => s.(ppc := PPublishConsumer(s.mem.producer))
    case PPublishConsumer(current) =>
      if n < current || n < s.mem.consumer then s.(ppc := PStuck) else s.(ppc := PPublishStore)
    case PPublishStore => s.(mem := s.mem.(producer := n), ppc := PIdle)
    case PStuck => s
  }

  // ----- consumer: ConsumeOneRingFrame -----

  ghost function Finish(
    s: State, status: ConsumeStatus, sequence: u64, dropped: u64, slot: u32, silence: bool, output: Frame, snap: u64)
      : State
  {
    s.(cpc := CIdle,
       calls := s.calls +
         [Call(status, sequence, dropped, slot, silence, output, s.entryProducer, s.entryConsumer, snap, |s.frames|)])
  }

  /** An error return; the bridge above this call replaces whatever the output held by zeros. */
  ghost function Fail(s: State, status: ConsumeStatus, dropped: u64 := 0): State {
    Finish(s, status, 0, dropped, 0, false, Zeros(s.geo.frameBytes), 0)
  }

  /** Continues a call once any overrun has been accounted. */
  ghost function AfterDrops(s: State, w: Window): State {
    if w.buffered == 0 then s.(cpc := CRecordUnderrun(w))
    else if !CanEncode(w.normalized) then Fail(s, SequenceOverflow, w.dropped)
    else s.(cpc := CStampBefore(w))
  }

  /** Continues a call once a stable snapshot has been read. */
  ghost function AfterSnapshot(s: State, snap: Cursors): State
    requires ValidGeometry(s.geo)
  {
    if snap.generation != s.geo.generation then Fail(s, GenerationMismatch)
    else match PlanCursors(s.geo.generation, s.geo.capacity, snap)
      case Failure(FrameSequenceOverflow) => Fail(s, SequenceOverflow)
      case Failure(_) => Fail(s, RingPlanFailed)
      case Success(w) =>
        if w.dropped == 0 then AfterDrops(s, w)
        else if w.normalized > MAX_FRAME_SEQUENCE + 1 then Fail(s, CursorPublishFailed)
        else s.(cpc := CSkipGeneration(w))
  }

  ghost function Retry(s: State, attempt: nat): State {
    if attempt + 1 < SNAPSHOT_ATTEMPTS then s.(cpc := CSnapGeneration(attempt + 1)) else Fail(s, CursorReadFailed)
  }

  ghost function Unstable(s: State, w: Window): State
    requires ValidGeometry(s.geo)
  {
    Finish(s, SlotUnstable, w.normalized, w.dropped, SlotOf(s.geo, w.normalized), true,
           Zeros(s.geo.frameBytes), Wrap64(w.normalized + w.buffered))
  }

  /** From the idle point to a planned window. */
  ghost function SnapshotStep(s: State): State
    requires Sized(s)
  {
    match s.cpc
    case CIdle => s.(cpc := CSnapGeneration(0), entryProducer := s.mem.producer, entryConsumer := s.mem.consumer)
    case CSnapGeneration(attempt) =>
      if s.mem.generation == 0 then Fail(s, CursorReadFailed) else s.(cpc := CSnapProducer(attempt, s.mem.generation))
    case CSnapProducer(attempt, g) => s.(cpc := CSnapConsumer(attempt, g, s.mem.producer))
    case CSnapConsumer(attempt, g, p) => s.(cpc := CSnapDrops(attempt, g, p, s.mem.consumer))
    case CSnapDrops(attempt, g, p, c) => s.(cpc := CSnapUnderruns(attempt, g, p, c, s.mem.drops))
    case CSnapUnderruns(attempt, g, p, c, d) => s.(cpc := CSnapRecheck(attempt, Cursors(g, p, c, d, s.mem.underruns)))
    case CSnapRecheck(attempt, snap) =>
      if snap.generation != s.mem.generation || snap.producer < snap.consumer then Retry(s, attempt)
      else AfterSnapshot(s, snap)
    case _ => s
  }

  /** Accounting for an overrun or an underrun. */
  ghost function AccountStep(s: State): State
    requires Sized(s)
  {
    match s.cpc
    case CSkipGeneration(w) =>
      if s.mem.generation != s.geo.generation then Fail(s, CursorPublishFailed) else s.(cpc := CSkipCurrent(w))
    case CSkipCurrent(w) => s.(cpc := CSkipProducer(w, s.mem.consumer))
    case CSkipProducer(w, current) =>
      if w.normalized < current || w.normalized > s.mem.producer then Fail(s, CursorPublishFailed)
        else s.(cpc := CSkipStore(w))
    case CSkipStore(w) => s.(mem := s.mem.(consumer := w.normalized), cpc := CRecordDrops(w))
    case CRecordDrops(w) => AfterDrops(s.(mem := s.mem.(drops := Wrap64(s.mem.drops + w.dropped))), w)
    case CRecordUnderrun(w) =>
      Finish(s.(mem := s.mem.(underruns := Wrap64(s.mem.underruns + 1))), Underrun, w.normalized, w.dropped,
             w.consumerSlot, true, Zeros(s.geo.frameBytes), Wrap64(w.normalized + w.buffered))
    case _ => s
  }

  /** The guarded copy of one slot. */
  ghost function CopyStep(s: State): State
    requires Sized(s)
  {
    match s.cpc
    case CStampBefore(w) =>
      if s.mem.stamps[SlotOf(s.geo, w.normalized)] != StableStamp(w.normalized) then Unstable(s, w)
      else s.(cpc := CCopy(w, []))
    case CCopy(w, out) =>
      if |out| < s.geo.frameBytes then
        s.(cpc := CCopy(w, out + [s.mem.audio[ByteIndex(s.geo, w.normalized, |out|)]]))
      else if s.mem.stamps[SlotOf(s.geo, w.normalized)] != StableStamp(w.normalized) then Unstable(s, w)
      else if w.normalized + 1 > MAX_FRAME_SEQUENCE + 1 then Fail(s, CursorPublishFailed, w.dropped)
      else s.(cpc := CDoneGeneration(w, out))
    case _ => s
  }

  /** Publication of the cursor past the copied frame. */
  ghost function DoneStep(s: State): State
    requires Sized(s)
  {
    match s.cpc
    case CDoneGeneration(w, out) =>
      if s.mem.generation != s.geo.generation then Fail(s, CursorPublishFailed, w.dropped)
        else s.(cpc := CDoneCurrent(w, out))
    case CDoneCurrent(w, out) => s.(cpc := CDoneProducer(w, out, s.mem.consumer))
    case CDoneProducer(w, out, current) =>
      if w.normalized + 1 < current || w.normalized + 1 > s.mem.producer then Fail(s, CursorPublishFailed, w.dropped)
      else s.(cpc := CDoneStore(w, out))
    case CDoneStore(w, out) =>
      Finish(s.(mem := s.mem.(consumer := Wrap64(w.normalized + 1))), Ok, w.normalized, w.dropped,
             SlotOf(s.geo, w.normalized), false, out, Wrap64(w.normalized + w.buffered))
    case _ => s
  }

  /** The consumer changes none of the producer's fields, its program counter and its history. */
  ghost predicate ConsumerOnly(s: State, t: State) {
    && t.geo == s.geo && t.ppc == s.ppc && t.frames == s.frames && t.newest == s.newest
    && t.mem.generation == s.mem.generation && t.mem.producer == s.mem.producer
    && t.mem.stamps == s.mem.stamps && t.mem.audio == s.mem.audio
    && s.calls <= t.calls && |t.calls| <= |s.calls| + 1
  }

  lemma {:induction false} ConsumerOnlySized(s: State, t: State)
    requires Sized(s) && ConsumerOnly(s, t)
    ensures Sized(t)
  {
  }

  lemma {:induction false} SnapshotStepFrame(s: State)
    requires Sized(s)
    ensures ConsumerOnly(s, SnapshotStep(s)) && Sized(SnapshotStep(s))
  {
    hide Sized, PlanCursors;
    ConsumerOnlySized(s, SnapshotStep(s));
  }

  lemma {:induction false} AccountStepFrame(s: State)
    requires Sized(s)
    ensures ConsumerOnly(s, AccountStep(s)) && Sized(AccountStep(s))
  {
    hide Sized;
    ConsumerOnlySized(s, AccountStep(s));
  }

  lemma {:induction false} CopyStepFrame(s: State)
    requires Sized(s)
    ensures ConsumerOnly(s, CopyStep(s)) && Sized(CopyStep(s))
  {
    hide Sized;
    ConsumerOnlySized(s, CopyStep(s));
  }

  lemma {:induction false} DoneStepFrame(s: State)
    requires Sized(s)
    ensures ConsumerOnly(s, DoneStep(s)) && Sized(DoneStep(s))
  {
    hide Sized;
    ConsumerOnlySized(s, DoneStep(s));
  }

  ghost function ConsumerStep(s: State): (t: State)
    requires Sized(s)
    ensures Sized(t) && ConsumerOnly(s, t)
  {
    hide Sized, SnapshotStep, AccountStep, CopyStep, DoneStep, ConsumerOnly;
    SnapshotStepFrame(s);
    AccountStepFrame(s);
    CopyStepFrame(s);
    DoneStepFrame(s);
    match s.cpc
    case CIdle | CSnapGeneration(_) | CSnapProducer(_, _) | CSnapConsumer(_, _, _) | CSnapDrops(_, _, _, _)
       | CSnapUnderruns(_, _, _, _, _) | CSnapRecheck(_, _) => SnapshotStep(s)
    case CSkipGeneration(_) | CSkipCurrent(_) | CSkipProducer(_, _) | CSkipStore(_) | CRecordDrops(_) |
      CRecordUnderrun(_) => AccountStep(s)
    case CStampBefore(_) | CCopy(_, _) => CopyStep(s)
    case CDoneGeneration(_, _) | CDoneCurrent(_, _) | CDoneProducer(_, _, _) | CDoneStore(_, _) => DoneStep(s)
  }

  /** Points at which the consumer's next access only reads. */
  predicate OnlyReads(cpc: ConsumerPc) {
    !cpc.CSkipStore? && !cpc.CRecordDrops? && !cpc.CRecordUnderrun? && !cpc.CDoneStore?
  }

  lemma {:induction false} ReadKeepsMemory(s: State)
    requires Sized(s) && OnlyReads(s.cpc)
    ensures ConsumerStep(s).mem == s.mem
  {
    hide Sized, PlanCursors;
  }

  // ----- runs -----

  ghost predicate ProducerMoves(s: State, t: State) {
    Sized(s) && exists frame: Frame :: |frame| == s.geo.frameBytes && t == ProducerStep(s, frame)
  }

  ghost predicate Next(s: State, t: State) {
    ProducerMoves(s, t) || (Sized(s) && t == ConsumerStep(s))
  }

  ghost predicate Run(run: seq<State>) {
    && 0 < |run| && Init(run[0])
    && forall i :: 0 <= i < |run| - 1 ==> Next(run[i], run[i + 1])
  }

  ghost predicate Reachable(s: State) {
    exists run: seq<State> :: Run(run) && run[|run| - 1] == s
  }
}
