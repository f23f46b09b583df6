/**
 The capture pipeline's objects: frame assembler, pump and recovering runtime, each tied to its function in
 CaptureSpec.
 */
module Capture {
  import opened Words
  import opened Wrappers
  import opened Reframing
  import opened Reframer
  import opened StreamControl
  import opened CaptureSpec

  class CaptureFrameAssembler {
    const session: Session
    const reframer: PacketReframer
    var nextSequence: u64

    ghost predicate Valid()
      reads this, reframer
    {
      ValidSession(session) && reframer.Valid() && reframer.format == session.format
    }

    ghost function Value(): PumpState
      requires Valid()
      reads this, reframer
    {
      PumpState(reframer.Pending(), nextSequence)
    }

    constructor (s: Session, r: PacketReframer, initialSequence: u64)
      ensures session == s && reframer == r && nextSequence == initialSequence
      ensures ValidSession(s) && r.Valid() && r.format == s.format ==> Valid()
    {
      session := s;
      reframer := r;
      nextSequence := initialSequence;
    }

    /** `CaptureFrameAssembler::new`. */
    static method New(s: Session, initialSequence: u64) returns (r: Result<CaptureFrameAssembler, AssemblyError>)
      ensures r.Failure? <==> Refusal(s).Some?
      ensures r.Failure? ==> Refusal(s) == Some(r.error)
      ensures r.Success? ==>
                && fresh(r.value) && fresh(r.value.reframer) && r.value.session == s
                && r.value.nextSequence == initialSequence
                && r.value.reframer.format == s.format && r.value.reframer.segments == []
      ensures r.Success? && 0 < s.format.sampleRateHz ==>
                r.value.Valid() && r.value.Value() == PumpState([], initialSequence)
    {
      if s.decoder.Failure? { return Failure(Decode(s.decoder.error)); }
      if s.decoder.value.frameBytes != s.format.blockAlign {
        return Failure(BlockAlignMismatch(s.format.blockAlign, s.decoder.value.frameBytes));
      }
      var reframer := PacketReframer.New(s.format);
      if reframer.Failure? { return Failure(Reframe(reframer.error)); }
      var assembler := new CaptureFrameAssembler(s, reframer.value, initialSequence);
      r := Success(assembler);
    }

    /** `assemble`: a failing frame leaves the sequence number for the next one. */
    method AssembleFrame(packet: ReframedPacket) returns (r: Result<CapturedFrame, AssemblyError>)
      requires ValidSession(session)
      modifies this
      ensures r == AssembleOne(session.decoder.value, old(nextSequence), packet)
      ensures nextSequence == old(nextSequence) + (if r.Success? then 1 else 0)
    {
      var samples := session.decoder.value.decode(packet.bytes);
      if samples.Failure? { return Failure(Decode(samples.error)); }
      var sequence := nextSequence;
      if sequence + 1 > U64_MAX { return Failure(SequenceOverflow); }
      var refused := session.decoder.value.check(samples.value);
      if refused.Some? { return Failure(Audio(refused.value)); }
      nextSequence := sequence + 1;
      r := Success(CapturedFrame(sequence, packet.qpcPosition / 10, samples.value, packet.flags, packet.devicePosition,
        packet.qpcPosition));
    }

    method PushPacket(packet: CapturedPacket) returns (r: Result<seq<CapturedFrame>, AssemblyError>)
      requires Valid()
      modifies this, reframer
      ensures Valid()
      ensures (r, Value()) == AssemblerPush(session, old(Value()), packet)
    {
      ghost var d := session.decoder.value;
      hide Push, AssembleOne, ValidSession, PacketReframer.Valid, PacketReframer.Pending;
      var reframed := reframer.Push(packet);
      if reframed.Failure? { return Failure(Reframe(reframed.error)); }
      var output: seq<CapturedFrame> := [];
      ghost var packets := reframed.value;
      ghost var pending := reframer.Pending();
      for i := 0 to |reframed.value|
        invariant Valid() && reframer.Pending() == pending
        invariant Assemble(d, old(nextSequence), packets[..i]) == (Success(output), nextSequence)
      {
        assert packets[..i + 1][..i] == packets[..i];
        var frame := AssembleFrame(reframed.value[i]);
        if frame.Failure? {
          FailureSticks(d, old(nextSequence), packets, i + 1);
          return Failure(frame.error);
        }
        output := output + [frame.value];
      }
      assert packets[..|packets|] == packets;
      r := Success(output);
    }
  }

  /** Once a frame fails to assemble, the rest of the packet's frames are not looked at. */
  lemma {:induction false} FailureSticks(d: Decoder, next: u64, packets: seq<ReframedPacket>, i: nat)
    requires i <= |packets| && Assemble(d, next, packets[..i]).0.Failure?
    ensures Assemble(d, next, packets) == Assemble(d, next, packets[..i])
  {
    if i < |packets| {
      assert packets[..|packets| - 1][..i] == packets[..i];
      FailureSticks(d, next, packets[..|packets| - 1], i);
    } else {
      assert packets[..i] == packets;
    }
  }

  class CapturePump {
    const assembler: CaptureFrameAssembler
    const maxPacketsPerDrain: nat

    constructor (a: CaptureFrameAssembler, budget: nat)
      ensures assembler == a && maxPacketsPerDrain == budget
    {
      assembler := a;
      maxPacketsPerDrain := budget;
    }

    ghost predicate Valid()
      reads this, assembler, assembler.reframer
    {
      assembler.Valid()
    }

    ghost function Value(): Pump
      requires Valid()
      reads this, assembler, assembler.reframer
    {
      Pump(assembler.session, assembler.Value())
    }

    /** `CapturePump::new`. */
    static method New(s: Session, initialSequence: u64, budget: nat) returns (r: Result<CapturePump, PumpError>)
      ensures r.Failure? <==> budget == 0 || Refusal(s).Some?
      ensures r.Failure? ==> r.error == if budget == 0 then PacketBudgetZero else Assembly(Refusal(s).value)
      ensures r.Success? ==>
                && fresh(r.value) && fresh(r.value.assembler) && fresh(r.value.assembler.reframer)
                && r.value.maxPacketsPerDrain == budget && r.value.assembler.session == s
                && r.value.assembler.nextSequence == initialSequence && r.value.assembler.reframer.segments == []
      ensures r.Success? && 0 < s.format.sampleRateHz ==>
                r.value.Valid() && r.value.Value() == Pump(s, PumpState([], initialSequence))
    {
      if budget == 0 { return Failure(PacketBudgetZero); }
      var assembler := CaptureFrameAssembler.New(s, initialSequence);
      if assembler.Failure? { return Failure(Assembly(assembler.error)); }
      var pump := new CapturePump(assembler.value, budget);
      r := Success(pump);
    }

    method DrainAvailable(eventSignaled: bool, replies: nat -> Reply) returns (r: Result<CaptureDrain, PumpError>)
      requires Valid()
      modifies assembler, assembler.reframer
      ensures Valid()
      ensures (r, Value().st) ==
              Drain(assembler.session, maxPacketsPerDrain, old(Value()).st, eventSignaled, replies, 0, [])
    {
      hide AssemblerPush, ValidSession, PacketReframer.Valid, PacketReframer.Pending;
      var packetsConsumed := 0;
      var frames: seq<CapturedFrame> := [];
      while packetsConsumed < maxPacketsPerDrain
        invariant Valid() && packetsConsumed <= maxPacketsPerDrain
        invariant Drain(assembler.session, maxPacketsPerDrain, old(Value()).st, eventSignaled, replies, 0, [])
               == Drain(assembler.session, maxPacketsPerDrain, Value().st, eventSignaled, replies, packetsConsumed,
                 frames)
      {
        var count := replies(packetsConsumed).nextFrames;
        if count.Failure? { return Failure(Capture(count.error)); }
        if count.value == 0 { return Success(CaptureDrain(eventSignaled, packetsConsumed, frames, true, false)); }
        var packet := replies(packetsConsumed).packet;
        if packet.Failure? { return Failure(Capture(packet.error)); }
        packetsConsumed := packetsConsumed + 1;
        if packet.value.Some? {
          var pushed := assembler.PushPacket(packet.value.value);
          if pushed.Failure? { return Failure(Assembly(pushed.error)); }
          frames := frames + pushed.value;
        }
      }
      var last := replies(packetsConsumed).nextFrames;
      if last.Failure? { return Failure(Capture(last.error)); }
      var queueDrained := last.value == 0;
      r := Success(CaptureDrain(eventSignaled, packetsConsumed, frames, queueDrained, !queueDrained));
    }

    method WaitThenDrain(wait: Result<bool, CaptureError>, replies: nat -> Reply)
      returns (r: Result<CaptureDrain, PumpError>)
      requires Valid()
      modifies assembler, assembler.reframer
      ensures Valid()
      ensures (r, Value().st) == WaitAndDrain(assembler.session, maxPacketsPerDrain, old(Value()).st, wait, replies)
    {
      if wait.Failure? { return Failure(Capture(wait.error)); }
      if !wait.value { return Success(TIMEOUT_DRAIN); }
      r := DrainAvailable(true, replies);
    }
  }

  class CaptureRuntime {
    const config: Config
    const controller: StreamController
    var pump: CapturePump?
    var nextSequence: u64

    constructor (c: Config, initialSequence: u64)
      ensures Valid() && config == c && fresh(controller)
      ensures Value() == Runtime(INITIAL_CONTROLLER, None, initialSequence)
    {
      config := c;
      controller := new StreamController(c.policy);
      pump := null;
      nextSequence := initialSequence;
    }

    ghost function Footprint(): set<object>
      reads this
    {
      {this, controller} + if pump == null then {} else {pump, pump.assembler, pump.assembler.reframer}
    }

    ghost predicate Valid()
      reads this, Footprint()
    {
      && controller.policy == config.policy
      && (pump != null ==> pump.Valid() && pump.maxPacketsPerDrain == config.maxPacketsPerDrain)
    }

    ghost function Value(): Runtime
      requires Valid()
      reads this, Footprint()
    {
      Runtime(controller.Value(), if pump == null then None else Some(pump.Value()), nextSequence)
    }

    /** `attempt_open`: the transition it adds and the error it reports. */
    method OpenDeviceNow(o: OpenOutcome) returns (t: StreamTransition, error: Option<PumpError>)
      requires Valid() && GoodOpening(o)
      modifies this`pump, controller
      ensures Valid() && fresh(Footprint() - old(Footprint()))
      ensures forall ordered ::
                AttemptOpen(config, old(Value()), ordered, o) == (Value(), Update([ordered, t], None, error))
    {
      error := None;
      var event := OpenFailed(DeviceUnavailable, true);
      match o {
        case OpenError(e) =>
          error := Some(Capture(e));
        case NoDevice =>
        case Opened(session, start) =>
          var made := CapturePump.New(session, nextSequence, config.maxPacketsPerDrain);
          if made.Failure? {
            error := Some(made.error);
          } else if start.Failure? {
            error := Some(Capture(start.error));
          } else {
            pump := made.value;
            event := OpenSucceeded;
          }
      }
      if error.Some? { event := OpenFailed(Classify(error.value).0, Classify(error.value).1); }
      t := controller.ApplyEvent(event);
    }

    method StartCapture(o: OpenOutcome) returns (update: Update)
      requires Valid() && GoodOpening(o)
      modifies this`pump, controller
      ensures Valid() && fresh(Footprint() - old(Footprint()))
      ensures (Value(), Result<Update, RuntimeError>.Success(update)) == Step(config, old(Value()), Start(o))
    {
      var t := controller.ApplyEvent(StartRequested);
      update := Update([t], None, None);
      if t.action.OpenDevice? {
        var added, error := OpenDeviceNow(o);
        update := Update([t, added], None, error);
      }
    }

    method RetryTimerElapsedNow(o: OpenOutcome) returns (update: Update)
      requires Valid() && GoodOpening(o)
      modifies this`pump, controller
      ensures Valid() && fresh(Footprint() - old(Footprint()))
      ensures (Value(), Result<Update, RuntimeError>.Success(update)) == Step(config, old(Value()), RetryTimer(o))
    {
      var t := controller.ApplyEvent(RetryTimerElapsed);
      update := Update([t], None, None);
      if t.action.OpenDevice? {
        var added, error := OpenDeviceNow(o);
        update := Update([t, added], None, error);
      }
    }

    method PollPump(wait: Result<bool, CaptureError>, replies: nat -> Reply) returns (r: Result<Update, RuntimeError>)
      requires Valid()
      modifies Footprint()
      ensures Valid() && Footprint() <= old(Footprint())
      ensures (Value(), r) == Step(config, old(Value()), Poll(wait, replies))
    {
      hide ValidSession, WaitAndDrain, Apply, PacketReframer.Valid, PacketReframer.Pending;
      if !controller.state.Running? && !controller.state.Bypassed? { return Failure(NotRunning(controller.state)); }
      if pump == null { return Failure(MissingActivePump); }
      var result := pump.WaitThenDrain(wait, replies);
      nextSequence := pump.assembler.nextSequence;
      if result.Success? { return Success(Update([], Some(result.value), None)); }
      DiscardPump();
      var t := controller.ApplyEvent(StreamFailed(Classify(result.error).0, Classify(result.error).1));
      r := Success(Update([t], None, Some(result.error)));
    }

    method NotifyDeviceInvalidated() returns (update: Update)
      requires Valid()
      modifies this, controller
      ensures Valid() && Footprint() <= old(Footprint())
      ensures (Value(), Result<Update, RuntimeError>.Success(update)) == Step(config, old(Value()), NotifyInvalidated)
    {
      DiscardPump();
      var t := controller.ApplyEvent(DeviceLost);
      update := Update([t], None, None);
    }

    method StopCapture(stopped: Result<(), CaptureError>) returns (update: Update)
      requires Valid()
      modifies this, controller
      ensures Valid() && Footprint() <= old(Footprint())
      ensures (Value(), Result<Update, RuntimeError>.Success(update)) == Step(config, old(Value()), Stop(stopped))
    {
      var error: Option<PumpError> := None;
      if pump != null {
        nextSequence := pump.assembler.nextSequence;
        if stopped.Failure? { error := Some(Capture(stopped.error)); }
      }
      pump := null;
      var t := controller.ApplyEvent(StopRequested);
      update := Update([t], None, error);
    }

    method DiscardPump()
      requires Valid()
      modifies this`pump, this`nextSequence
      ensures Valid() && Footprint() <= old(Footprint()) && Value() == Discard(old(Value()))
    {
      if pump != null { nextSequence := pump.assembler.nextSequence; }
      pump := null;
    }
  }
}
