/**
 The transport header, the slot-stamp encoding and the ring-window planner, once as the driver
 (C++) writes them and once as the capture process (Rust) writes them.
 */
module Protocol {
  import opened Words
  import opened Wrappers
  import opened Arithmetic

  const PROTOCOL_MAGIC: u32 := 0x4D4E5356
  const PROTOCOL_VERSION: u16 := 2
  const HEADER_BYTES: int := 40
  const SAMPLE_FORMAT_F32_LE: u16 := 1
  const MAX_FRAME_SEQUENCE: u64 := 0x7FFF_FFFF_FFFF_FFFF

  datatype Header = Header(
    magic: u32, version: u16, headerBytes: u16, generation: u64, sampleRateHz: u32, channels: u16,
    sampleFormat: u16, frameDurationMicros: u32, capacityFrames: u32, samplesPerFrame: u32, reserved: u32)

  datatype Cursors = Cursors(generation: u64, producer: u64, consumer: u64, drops: u64, underruns: u64)

  datatype Window = Window(
    capacity: u64, buffered: u64, producerSlot: u32, consumerSlot: u32, normalized: u64, dropped: u64)

  datatype ContractStatus =
    | MagicMismatch | VersionMismatch | HeaderSizeMismatch | InvalidSessionGeneration | InvalidCapacity
    | UnsupportedSampleFormat | InvalidFrameDuration | InvalidSampleRate | InvalidChannelCount
    | NonIntegralFrameSize | SamplesPerFrameMismatch | ReservedFieldNonZero
    | SessionGenerationMismatch | CursorOrderInvalid | FrameSequenceOverflow

  // ----- slot stamps -----

  predicate CanEncode(sequence: int) { sequence <= MAX_FRAME_SEQUENCE }

  /** `sequence << 1` on 64 bits. */
  function StableStamp(sequence: u64): u64 { Wrap64(2 * sequence) }

  /** Setting bit 0 of an even word adds one. */
  function WritingStamp(sequence: u64): u64 {
    if StableStamp(sequence) % 2 == 0 then StableStamp(sequence) + 1 else StableStamp(sequence)
  }

  predicate StampIsWriting(stamp: u64) { stamp % 2 == 1 }

  function StampSequence(stamp: u64): u64 { stamp / 2 }

  /** Over encodable sequences a stamp names its sequence and its phase, and nothing else shares it. */
  lemma {:induction false} StampsIdentify(a: u64, b: u64)
    requires CanEncode(a) && CanEncode(b)
    ensures StampSequence(StableStamp(a)) == StampSequence(WritingStamp(a)) == a
    ensures !StampIsWriting(StableStamp(a)) && StampIsWriting(WritingStamp(a))
    ensures StableStamp(a) == StableStamp(b) <==> a == b
    ensures WritingStamp(a) == WritingStamp(b) <==> a == b
    ensures StableStamp(a) != WritingStamp(b)
  {
    assert StableStamp(a) == 2 * a && StableStamp(b) == 2 * b;
  }

  // ----- header validation, C++ -----

  function HeaderStatus(h: Header): Option<ContractStatus> {
    if h.magic != PROTOCOL_MAGIC then Some(MagicMismatch)
    else if h.version != PROTOCOL_VERSION then Some(VersionMismatch)
    else if h.headerBytes != HEADER_BYTES then Some(HeaderSizeMismatch)
    else if h.generation == 0 then Some(InvalidSessionGeneration)
    else if h.capacityFrames == 0 then Some(InvalidCapacity)
    else if h.sampleFormat != SAMPLE_FORMAT_F32_LE then Some(UnsupportedSampleFormat)
    else if h.frameDurationMicros == 0 || h.frameDurationMicros % 1000 != 0 then Some(InvalidFrameDuration)
    else
      var ms := h.frameDurationMicros / 1000;
      if ms == 0 || ms > 100 then Some(InvalidFrameDuration)
      else if h.sampleRateHz == 0 then Some(InvalidSampleRate)
      else if h.channels == 0 then Some(InvalidChannelCount)
      else
        var numerator := h.sampleRateHz * ms;
        if numerator % 1000 != 0 then Some(NonIntegralFrameSize)
        else
          var expected := numerator / 1000 * h.channels;
          if expected > U32_MAX || h.samplesPerFrame != expected then Some(SamplesPerFrameMismatch)
          else if h.reserved != 0 then Some(ReservedFieldNonZero)
          else None
  }

  predicate ValidHeader(h: Header) { HeaderStatus(h).None? }

  // ----- header validation, Rust -----

  datatype AudioFormat = AudioFormat(sampleRateHz: u32, channels: u16, frameDurationMs: u16)

  datatype RustError =
    | RustMagic | RustVersion | RustHeaderSize | RustGeneration | RustCapacity | RustSampleFormat
    | RustFrameDuration | RustFormat | RustSamples | RustReserved
    | RustSessionMismatch | RustCursorOrder | RustSequenceOverflow

  /** `AudioFormat::samples_per_frame`; usize is 64 bits wide. */
  function FormatSamples(f: AudioFormat): Option<u64> {
    if f.sampleRateHz == 0 || f.channels == 0 || f.frameDurationMs == 0 || f.frameDurationMs > 100 then None
    else
      var perChannel := f.sampleRateHz * f.frameDurationMs;
      if perChannel > U64_MAX || perChannel % 1000 != 0 then None
      else
        var total := perChannel / 1000 * f.channels;
        if total > U64_MAX then None
          else assert 0 <= total by { ProductNonNegative(perChannel / 1000, f.channels); } Some(total)
  }

  function RustValidate(h: Header): Result<AudioFormat, RustError> {
    if h.magic != PROTOCOL_MAGIC then Failure(RustMagic)
    else if h.version != PROTOCOL_VERSION then Failure(RustVersion)
    else if h.headerBytes != HEADER_BYTES then Failure(RustHeaderSize)
    else if h.generation == 0 then Failure(RustGeneration)
    else if h.capacityFrames == 0 then Failure(RustCapacity)
    else if h.sampleFormat != SAMPLE_FORMAT_F32_LE then Failure(RustSampleFormat)
    else if h.frameDurationMicros == 0 || h.frameDurationMicros % 1000 != 0 then Failure(RustFrameDuration)
    else if h.frameDurationMicros / 1000 > U16_MAX then Failure(RustFrameDuration)
    else
      var format := AudioFormat(h.sampleRateHz, h.channels, h.frameDurationMicros / 1000);
      match FormatSamples(format)
      case None => Failure(RustFormat)
      case Some(expected) =>
        if h.samplesPerFrame != expected then Failure(RustSamples)
        else if h.reserved != 0 then Failure(RustReserved)
        else Success(format)
  }

  /** Both validators accept exactly the same headers, although they check in different orders and widths. */
  lemma {:induction false} ValidatorsAgree(h: Header)
    ensures RustValidate(h).Success? <==> ValidHeader(h)
  {
    var ms := h.frameDurationMicros / 1000;
    if 0 < ms <= 100 && h.sampleRateHz != 0 && h.channels != 0 {
      var perChannel := h.sampleRateHz * ms;
      BoundedProduct(h.sampleRateHz, ms, U32_MAX, 100);
      BoundedProduct(perChannel / 1000, h.channels, U32_MAX, U16_MAX);
    }
  }

  /**
   The headers accepted, field by field: samples times a second is rate times channels times duration, with none split.
   */
  lemma {:induction false} HeaderFields(h: Header)
    ensures ValidHeader(h) <==>
              && h.magic == 0x4D4E5356 && h.version == 2 && h.headerBytes == 40 && h.sampleFormat == 1
              && h.reserved == 0
              && h.generation != 0 && h.capacityFrames != 0 && h.sampleRateHz != 0 && h.channels != 0
              && WholeMillis(h.frameDurationMicros) && FrameSize(h)
  {
    if ValidHeader(h) {
      var ms := h.frameDurationMicros / 1000;
      assert 1 <= ms <= 100 && h.frameDurationMicros == 1000 * ms;
      ValidIsSized(h, ms);
    }
    if WholeMillis(h.frameDurationMicros) && FrameSize(h) {
      var ms: nat :| 1 <= ms <= 100 && h.frameDurationMicros == 1000 * ms;
      SizedIsValid(h, ms);
    }
    hide FrameSize;
  }

  lemma {:induction false} ValidIsSized(h: Header, ms: nat)
    requires h.frameDurationMicros == 1000 * ms && h.sampleRateHz * ms % 1000 == 0
    requires h.samplesPerFrame == h.sampleRateHz * ms / 1000 * h.channels
    ensures FrameSize(h)
  {
    var n := h.sampleRateHz * ms / 1000;
    assert h.sampleRateHz * ms == n * 1000;
    assert h.sampleRateHz * h.frameDurationMicros == n * 1_000_000;
  }

  lemma {:induction false} SizedIsValid(h: Header, ms: nat)
    requires h.frameDurationMicros == 1000 * ms && 1 <= ms && FrameSize(h)
    ensures h.frameDurationMicros % 1000 == 0 && h.frameDurationMicros / 1000 == ms
    ensures h.sampleRateHz * ms % 1000 == 0 && h.samplesPerFrame == h.sampleRateHz * ms / 1000 * h.channels
  {
    RemainderIs(h.frameDurationMicros, 1000, ms, 0);
    var n: nat :| h.sampleRateHz * h.frameDurationMicros == n * 1_000_000 && h.samplesPerFrame == n * h.channels;
    assert h.sampleRateHz * ms == 1000 * n;
    RemainderIs(h.sampleRateHz * ms, 1000, n, 0);
  }

  /** One to a hundred milliseconds. */
  ghost predicate WholeMillis(micros: u32) { exists ms: nat :: 1 <= ms <= 100 && micros == 1000 * ms }

  /** Each channel has a whole number of samples in a frame, and the frame holds those of all channels. */
  ghost predicate FrameSize(h: Header) {
    exists n: nat :: h.sampleRateHz * h.frameDurationMicros == n * 1_000_000 && h.samplesPerFrame == n * h.channels
  }

  /** A valid header's frame size is exactly rate * channels * duration, and never empty. */
  lemma {:induction false} ValidHeaderFrameSize(h: Header)
    requires ValidHeader(h)
    ensures h.samplesPerFrame * 1_000_000 == h.sampleRateHz * h.channels * h.frameDurationMicros
    ensures 1 <= h.samplesPerFrame && 1 <= h.capacityFrames
  {
    var ms := h.frameDurationMicros / 1000;
    var perChannel := h.sampleRateHz * ms;
    var q := perChannel / 1000;
    assert q * 1000 == perChannel;
    assert h.samplesPerFrame * 1000 == h.sampleRateHz * ms * h.channels by {
      assert h.samplesPerFrame == q * h.channels;
      assert q * h.channels * 1000 == q * 1000 * h.channels;
    }
    calc {
      h.samplesPerFrame * 1_000_000;
      (h.sampleRateHz * ms * h.channels) * 1000;
      h.sampleRateHz * h.channels * (ms * 1000);
    }
    assert 1 <= perChannel;
    assert 1 <= q;
    assert 1 <= q * h.channels;
  }

  // ----- ring window, C++ and Rust -----

  function PlanWindow(h: Header, c: Cursors): Result<Window, ContractStatus> {
    if HeaderStatus(h).Some? then Failure(HeaderStatus(h).value)
    else PlanCursors(h.generation, h.capacityFrames, c)
  }

  /** The part of planning that follows once the header is known to be valid. */
  function PlanCursors(generation: u64, capacity: u32, c: Cursors): Result<Window, ContractStatus>
    requires capacity != 0
  {
    if c.generation != generation then Failure(SessionGenerationMismatch)
    else if c.producer < c.consumer then Failure(CursorOrderInvalid)
    else if c.producer > MAX_FRAME_SEQUENCE + 1 || c.consumer > MAX_FRAME_SEQUENCE + 1
      then Failure(FrameSequenceOverflow)
    else Success(WindowOf(capacity, c.producer, c.consumer))
  }

  function WindowOf(capacity: u32, producer: u64, consumer: u64): Window
    requires capacity != 0 && consumer <= producer
  {
    var raw := producer - consumer;
    var dropped := if raw > capacity then raw - capacity else 0;
    var normalized := if dropped == 0 then consumer else producer - capacity;
    var buffered := if raw < capacity then raw else capacity;
    Window(capacity, buffered, producer % capacity, normalized % capacity, normalized, dropped)
  }

  function RustPlanWindow(h: Header, c: Cursors): Result<Window, RustError> {
    if RustValidate(h).Failure? then Failure(RustValidate(h).error)
    else if c.generation != h.generation then Failure(RustSessionMismatch)
    else if c.producer < c.consumer then Failure(RustCursorOrder)
    else if c.producer > MAX_FRAME_SEQUENCE + 1 || c.consumer > MAX_FRAME_SEQUENCE + 1
      then Failure(RustSequenceOverflow)
    else
      var capacity := h.capacityFrames;
      var raw := c.producer - c.consumer;
      var dropped := Max(raw - capacity, 0);
      var normalized := c.consumer + dropped;
      Success(Window(capacity, Min(raw, capacity), c.producer % capacity, normalized % capacity, normalized, dropped))
  }

  /** On all cursors the two planners accept together and plan the same window. */
  lemma {:induction false} PlannersAgree(h: Header, c: Cursors)
    ensures PlanWindow(h, c).Success? <==> RustPlanWindow(h, c).Success?
    ensures PlanWindow(h, c).Success? ==> PlanWindow(h, c).value == RustPlanWindow(h, c).value
    ensures PlanWindow(h, c) == Failure(SessionGenerationMismatch) <==>
              RustPlanWindow(h, c) == Failure(RustSessionMismatch)
    ensures PlanWindow(h, c) == Failure(CursorOrderInvalid) <==> RustPlanWindow(h, c) == Failure(RustCursorOrder)
    ensures PlanWindow(h, c) == Failure(FrameSequenceOverflow) <==>
              RustPlanWindow(h, c) == Failure(RustSequenceOverflow)
  {
    ValidatorsAgree(h);
  }

  predicate InWindow(w: Window, sequence: int) { w.normalized <= sequence < w.normalized + w.buffered }

  /** A planned window is exactly the newest min(backlog, capacity) unread sequences, one slot each. */
  lemma {:induction false} WindowIsNewest(h: Header, c: Cursors, w: Window)
    requires PlanWindow(h, c) == Success(w)
    ensures forall s: int :: InWindow(w, s) <==> c.consumer <= s < c.producer && c.producer - s <= h.capacityFrames
    ensures w.buffered == Min(c.producer - c.consumer, h.capacityFrames)
    ensures w.dropped + w.buffered == c.producer - c.consumer && w.normalized == c.consumer + w.dropped
    ensures w.consumerSlot == w.normalized % h.capacityFrames
    ensures w.producerSlot == (w.normalized + w.buffered) % h.capacityFrames
    ensures forall s, t {:trigger InWindow(w, s), InWindow(w, t)} :: InWindow(w, s) && InWindow(w, t) && s != t ==>
              s % h.capacityFrames != t % h.capacityFrames
  {
    forall s, t {:trigger InWindow(w, s), InWindow(w, t)} | InWindow(w, s) && InWindow(w, t) && s < t
      ensures s % h.capacityFrames != t % h.capacityFrames
    {
      if s % h.capacityFrames == t % h.capacityFrames { SameSlotIsLapApart(s, t, h.capacityFrames); }
    }
  }

  /** Two sequences sharing a slot are at least one full lap apart. */
  lemma {:induction false} SameSlotIsLapApart(s: int, t: int, capacity: int)
    requires 0 < capacity && s < t && s % capacity == t % capacity
    ensures s + capacity <= t
  {
    var qs, qt := s / capacity, t / capacity;
    assert t - s == capacity * (qt - qs);
    PositiveFactor(capacity, qt - qs);
  }
}
