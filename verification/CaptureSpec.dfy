/**
 The capture pipeline above the reframer, as functions on values: frame assembly, one bounded drain of the
 packet source, and the recovering runtime. The classes of module Capture are proved equal to these, and the
 run-level theorems are proved about them. Decoding and the opener's and source's answers are parameters.
 */
module CaptureSpec {
  import opened Words
  import opened Wrappers
  import opened Reframing
  import opened StreamControl

  // ----- assembly -----

  /** Sample decoding and the check `AudioFrame::new` makes of the decoded samples. */
  datatype Decoder = Decoder(
    frameBytes: nat, decode: seq<byte> -> Result<seq<int>, int>, check: seq<int> -> Option<int>)

  datatype Session = Session(format: Format, decoder: Result<Decoder, int>)

  datatype AssemblyError =
    | BlockAlignMismatch(declared: u16, expected: nat)
    | SequenceOverflow
    | Reframe(error: Error)
    | Decode(code: int)
    | Audio(code: int)

  datatype CapturedFrame = CapturedFrame(
    sequence: u64, capturedAtMicros: nat, samples: seq<int>, flags: Flags, devicePosition: nat, qpcPosition: nat)

  /** Why an assembler for the session is refused, if it is. */
  function Refusal(s: Session): Option<AssemblyError> {
    match s.decoder
    case Failure(code) => Some(Decode(code))
    case Success(d) =>
      if d.frameBytes != s.format.blockAlign then Some(BlockAlignMismatch(s.format.blockAlign, d.frameBytes))
      else if s.format.blockAlign == 0 then Some(Reframe(BlockAlignZero))
      else if s.format.targetFrames == 0 then Some(Reframe(TargetFrameCountZero))
      else None
  }

  predicate ValidSession(s: Session) { Refusal(s).None? && 0 < s.format.sampleRateHz }

  function AssembleOne(d: Decoder, next: u64, p: ReframedPacket): Result<CapturedFrame, AssemblyError> {
    match d.decode(p.bytes)
    case Failure(code) => Failure(Decode(code))
    case Success(samples) =>
      if next + 1 > U64_MAX then Failure(SequenceOverflow)
      else if d.check(samples).Some? then Failure(Audio(d.check(samples).value))
      else Success(CapturedFrame(next, p.qpcPosition / 10, samples, p.flags, p.devicePosition, p.qpcPosition))
  }

  /** A sequence number is used up only by a frame that assembles, but frames before a failing one are lost. */
  function Assemble(d: Decoder, next: u64, packets: seq<ReframedPacket>)
      : (Result<seq<CapturedFrame>, AssemblyError>, u64)
  {
    if |packets| == 0 then (Success([]), next)
    else
      var (r, n) := Assemble(d, next, packets[..|packets| - 1]);
      if r.Failure? then (r, n)
      else match AssembleOne(d, n, packets[|packets| - 1])
        case Failure(e) => (Failure(e), n)
        case Success(frame) => (Success(r.value + [frame]), n + 1)
  }

  /** A pump's own state: the reframer's pending samples and the next sequence number. */
  datatype PumpState = PumpState(pending: seq<Sample>, next: u64)

  function AssemblerPush(s: Session, st: PumpState, p: CapturedPacket)
      : (Result<seq<CapturedFrame>, AssemblyError>, PumpState)
    requires ValidSession(s)
  {
    var o := Push(s.format, st.pending, p);
    match o.result
    case Failure(e) => (Failure(Reframe(e)), st.(pending := o.pending))
    case Success(packets) =>
      var (r, n) := Assemble(s.decoder.value, st.next, packets);
      (r, PumpState(o.pending, n))
  }

  // ----- the pump -----

  datatype CaptureError =
    | DeviceInvalidatedError | ResourcesInvalidated | AudioServiceNotRunning | OtherCaptureError(code: int)

  datatype PumpError = PacketBudgetZero | Capture(error: CaptureError) | Assembly(why: AssemblyError)

  /** What the source would answer at one turn of the drain loop. */
  datatype Reply = Reply(nextFrames: Result<u32, CaptureError>, packet: Result<Option<CapturedPacket>, CaptureError>)

  datatype CaptureDrain = CaptureDrain(
    eventSignaled: bool, packetsConsumed: nat, frames: seq<CapturedFrame>, queueDrained: bool, hitPacketBudget: bool)

  const TIMEOUT_DRAIN := CaptureDrain(false, 0, [], true, false)

  function Drain(
    s: Session, budget: nat, st: PumpState, signaled: bool, replies: nat -> Reply, i: nat, frames: seq<CapturedFrame>)
      : (Result<CaptureDrain, PumpError>, PumpState)
    requires ValidSession(s) && i <= budget
    decreases budget - i
  {
    match replies(i).nextFrames
    case Failure(e) => (Failure(Capture(e)), st)
    case Success(count) =>
      if i == budget then (Success(CaptureDrain(signaled, i, frames, count == 0, count != 0)), st)
      else if count == 0 then (Success(CaptureDrain(signaled, i, frames, true, false)), st)
      else match replies(i).packet
        case Failure(e) => (Failure(Capture(e)), st)
        case Success(None) => Drain(s, budget, st, signaled, replies, i + 1, frames)
        case Success(Some(p)) =>
          var (r, st') := AssemblerPush(s, st, p);
          if r.Failure? then (Failure(Assembly(r.error)), st')
          else Drain(s, budget, st', signaled, replies, i + 1, frames + r.value)
  }

  function WaitAndDrain(s: Session, budget: nat, st: PumpState, wait: Result<bool, CaptureError>, replies: nat -> Reply)
      : (Result<CaptureDrain, PumpError>, PumpState)
    requires ValidSession(s)
  {
    match wait
    case Failure(e) => (Failure(Capture(e)), st)
    case Success(false) => (Success(TIMEOUT_DRAIN), st)
    case Success(true) => Drain(s, budget, st, true, replies, 0, [])
  }

  // ----- the runtime -----

  function Classify(e: PumpError): (StreamFault, bool) {
    match e
    case Capture(DeviceInvalidatedError) => (DeviceInvalidated, true)
    case Capture(ResourcesInvalidated) => (DeviceInvalidated, true)
    case Capture(AudioServiceNotRunning) => (DeviceUnavailable, true)
    case _ => (Backend, false)
  }

  /** What the opener finds: an error, no device, or a session that starts or fails to. */
  datatype OpenOutcome =
    | OpenError(error: CaptureError) | NoDevice | Opened(session: Session, start: Result<(), CaptureError>)

  datatype Pump = Pump(session: Session, st: PumpState)

  datatype Runtime = Runtime(controller: Controller, pump: Option<Pump>, next: u64)

  datatype Update = Update(transitions: seq<StreamTransition>, drain: Option<CaptureDrain>, error: Option<PumpError>)

  datatype RuntimeError = NotRunning(state: StreamState) | MissingActivePump

  datatype Config = Config(maxPacketsPerDrain: nat, policy: RecoveryPolicy)

  /** The public calls with everything the outside world contributes to them. */
  datatype Call =
    | Start(outcome: OpenOutcome)
    | RetryTimer(outcome: OpenOutcome)
    | Poll(wait: Result<bool, CaptureError>, replies: nat -> Reply)
    | NotifyInvalidated
    | Stop(stopped: Result<(), CaptureError>)

  /** Every session the opener produces has a positive sample rate. */
  predicate GoodOpening(o: OpenOutcome) { o.Opened? ==> 0 < o.session.format.sampleRateHz }

  predicate GoodCall(c: Call) { c.Start? || c.RetryTimer? ==> GoodOpening(c.outcome) }

  function NewPump(cfg: Config, session: Session, next: u64): Result<Pump, PumpError> {
    if cfg.maxPacketsPerDrain == 0 then Failure(PacketBudgetZero)
    else if Refusal(session).Some? then Failure(Assembly(Refusal(session).value))
    else Success(Pump(session, PumpState([], next)))
  }

  /** What attempting to open leaves: a running pump, or an event and an error to report. */
  function OpenPump(cfg: Config, o: OpenOutcome, next: u64): Result<Option<Pump>, PumpError> {
    match o
    case OpenError(e) => Failure(Capture(e))
    case NoDevice => Success(None)
    case Opened(session, start) =>
      match NewPump(cfg, session, next)
      case Failure(e) => Failure(e)
      case Success(pump) => if start.Failure? then Failure(Capture(start.error)) else Success(Some(pump))
  }

  function OpenEvent(found: Result<Option<Pump>, PumpError>): StreamEvent {
    match found
    case Failure(e) => OpenFailed(Classify(e).0, Classify(e).1)
    case Success(None) => OpenFailed(DeviceUnavailable, true)
    case Success(Some(_)) => OpenSucceeded
  }

  function After(cfg: Config, c: Controller, e: StreamEvent): Controller { Apply(cfg.policy, c, e).0 }

  /** `attempt_open`, after the transition that ordered it. */
  function AttemptOpen(cfg: Config, s: Runtime, ordered: StreamTransition, o: OpenOutcome): (Runtime, Update) {
    var found := OpenPump(cfg, o, s.next);
    var event := OpenEvent(found);
    var pump := if found.Success? && found.value.Some? then found.value else s.pump;
    (Runtime(After(cfg, s.controller, event), pump, s.next),
     Update([ordered, TransitionOf(cfg.policy, s.controller, event)], None,
            if found.Failure? then Some(found.error) else None))
  }

  function MaybeOpen(cfg: Config, s: Runtime, trigger: StreamEvent, o: OpenOutcome): (Runtime, Update) {
    var t := TransitionOf(cfg.policy, s.controller, trigger);
    var triggered := s.(controller := After(cfg, s.controller, trigger));
    if t.action.OpenDevice? then AttemptOpen(cfg, triggered, t, o) else (triggered, Update([t], None, None))
  }

  /** `discard_pump` remembers where the pump's numbering had got to. */
  function Discard(s: Runtime): Runtime {
    Runtime(s.controller, None, if s.pump.Some? then s.pump.value.st.next else s.next)
  }

  function PollStep(cfg: Config, s: Runtime, wait: Result<bool, CaptureError>, replies: nat -> Reply)
      : (Runtime, Result<Update, RuntimeError>)
    requires s.pump.Some? ==> ValidSession(s.pump.value.session)
  {
    if !s.controller.state.Running? && !s.controller.state.Bypassed? then (s, Failure(NotRunning(s.controller.state)))
    else if s.pump.None? then (s, Failure(MissingActivePump))
    else
      var pump := s.pump.value;
      var (r, st) := WaitAndDrain(pump.session, cfg.maxPacketsPerDrain, pump.st, wait, replies);
      var drained := s.(pump := Some(pump.(st := st)), next := st.next);
      match r
      case Success(drain) => (drained, Success(Update([], Some(drain), None)))
      case Failure(e) =>
        var event := StreamFailed(Classify(e).0, Classify(e).1);
        var discarded := Discard(drained);
        (discarded.(controller := After(cfg, s.controller, event)),
         Success(Update([TransitionOf(cfg.policy, s.controller, event)], None, Some(e))))
  }

  function Step(cfg: Config, s: Runtime, call: Call): (Runtime, Result<Update, RuntimeError>)
    requires s.pump.Some? ==> ValidSession(s.pump.value.session)
  {
    match call
    case Start(o) => var (u, update) := MaybeOpen(cfg, s, StartRequested, o); (u, Success(update))
    case RetryTimer(o) => var (u, update) := MaybeOpen(cfg, s, RetryTimerElapsed, o); (u, Success(update))
    case Poll(wait, replies) => PollStep(cfg, s, wait, replies)
    case NotifyInvalidated =>
      (Discard(s).(controller := After(cfg, s.controller, DeviceLost)),
       Success(Update([TransitionOf(cfg.policy, s.controller, DeviceLost)], None, None)))
    case Stop(stopped) =>
      (Discard(s).(controller := After(cfg, s.controller, StopRequested)),
       Success(Update([TransitionOf(cfg.policy, s.controller, StopRequested)], None,
                      if s.pump.Some? && stopped.Failure? then Some(Capture(stopped.error)) else None)))
  }
}
