/** The connect gate and the bridge from the control device's published mapping to the capture tick. */
module TransportBridge {
  import opened Words
  import opened Wrappers
  import opened Protocol
  import opened RegionLayout
  import opened RingMachine
  import opened RingSafety
  import opened RingTheorems
  import opened RingRegion
  import ControlDevice

  const CONTROL_MAGIC: u32 := 0x434E5356
  const CONTROL_VERSION: u16 := 2
  const CONNECT_REQUEST_BYTES: int := 56
  const MAX_SECTION_BYTES: int := 16 * 1024 * 1024

  const WAVE_SAMPLE_RATE: u32 := 48_000
  const WAVE_CHANNELS: u16 := 1
  const WAVE_BLOCK_ALIGN: u32 := 4
  const TICK_MICROS: u32 := 10_000
  const TICK_SAMPLES: u32 := 480
  const TICK_BYTES: int := 1920

  datatype ConnectRequest = ConnectRequest(
    magic: u32, version: u16, structBytes: u16, protocol: Header, flags: u32, reserved: u32)

  datatype ConnectError =
    | BadMagic | BadVersion | BadStructSize | HeaderInvalid | EndpointMismatch | UnsupportedFlags | ReservedNonZero
    | BadSectionSize | Busy | SectionFailed

  predicate MatchesEndpoint(h: Header) {
    && h.sampleRateHz == WAVE_SAMPLE_RATE && h.channels == WAVE_CHANNELS && h.sampleFormat == SAMPLE_FORMAT_F32_LE
    && h.frameDurationMicros == TICK_MICROS && h.samplesPerFrame == TICK_SAMPLES
  }

  function ConnectRequestError(q: ConnectRequest): Option<ConnectError> {
    if q.magic != CONTROL_MAGIC then Some(BadMagic)
    else if q.version != CONTROL_VERSION then Some(BadVersion)
    else if q.structBytes != CONNECT_REQUEST_BYTES then Some(BadStructSize)
    else if !ValidHeader(q.protocol) then Some(HeaderInvalid)
    else if !MatchesEndpoint(q.protocol) then Some(EndpointMismatch)
    else if q.flags != 0 then Some(UnsupportedFlags)
    else if q.reserved != 0 then Some(ReservedNonZero)
    else None
  }

  /** The size limits CONNECT applies after validation. */
  function ConnectLayout(q: ConnectRequest): Result<Layout, ConnectError> {
    if ConnectRequestError(q).Some? then Failure(ConnectRequestError(q).value)
    else match PlanLayout(q.protocol)
      case Failure(_) => Failure(BadSectionSize)
      case Success(layout) =>
        if layout.totalBytes == 0 || layout.totalBytes > MAX_SECTION_BYTES then Failure(BadSectionSize)
          else Success(layout)
  }

  /** A header the endpoint can carry: only the session generation and the ring capacity are the caller's choice. */
  predicate EndpointHeader(h: Header) {
    h == Header(0x4D4E5356, 2, 40, h.generation, 48_000, 1, 1, 10_000, h.capacityFrames, 480, 0)
    && h.generation != 0 && h.capacityFrames != 0
  }

  /** Validation accepts exactly the requests whose every field but those two is the one value it must have. */
  lemma {:induction false} RequestFields(q: ConnectRequest)
    ensures ConnectRequestError(q).None? <==>
              q == ConnectRequest(0x434E5356, 2, 56, q.protocol, 0, 0) && EndpointHeader(q.protocol)
  {
    assert 48_000 * 10 / 1000 * 1 == 480 && 48_000 * 10 % 1000 == 0;
  }

  /** Which fault of a request is reported, by the first of these that is not in order. */
  lemma {:induction false} RequestFaults(q: ConnectRequest)
    ensures var e := ConnectRequestError(q);
            var prefix := q.magic == 0x434E5356 && q.version == 2 && q.structBytes == 56;
            var header := prefix && ValidHeader(q.protocol);
            var endpoint := header && EndpointHeader(q.protocol);
            && (e == Some(BadMagic) <==> q.magic != 0x434E5356)
            && (e == Some(BadVersion) <==> q.magic == 0x434E5356 && q.version != 2)
            && (e == Some(BadStructSize) <==> q.magic == 0x434E5356 && q.version == 2 && q.structBytes != 56)
            && (e == Some(HeaderInvalid) <==> prefix && !ValidHeader(q.protocol))
            && (e == Some(EndpointMismatch) <==> header && !EndpointHeader(q.protocol))
            && (e == Some(UnsupportedFlags) <==> endpoint && q.flags != 0)
            && (e == Some(ReservedNonZero) <==> endpoint && q.flags == 0 && q.reserved != 0)
  {
    assert 48_000 * 10 / 1000 * 1 == 480 && 48_000 * 10 % 1000 == 0;
  }

  /** An accepted request fixes the frame size to one capture tick; capacity is all that remains free. */
  lemma {:induction false} ConnectFixesGeometry(q: ConnectRequest)
    requires ConnectLayout(q).Success?
    ensures ValidHeader(q.protocol) && MatchesEndpoint(q.protocol)
    ensures PlanLayout(q.protocol) == Success(ConnectLayout(q).value)
    ensures ConnectLayout(q).value.frameBytes == TICK_BYTES == GeometryOf(q.protocol).frameBytes
    ensures TICK_BYTES * q.protocol.capacityFrames < MAX_SECTION_BYTES
  {
    hide HeaderStatus;
    LayoutExact(q.protocol);
    RoundUpIsLeast(128 + STAMP_BYTES * q.protocol.capacityFrames, REGION_ALIGNMENT);
  }

  /** For endpoint formats the gate is exactly a bound on the ring capacity. */
  lemma {:induction false} ConnectAcceptsExactly(q: ConnectRequest)
    requires ConnectRequestError(q).None?
    ensures ConnectLayout(q).Success? <==>
              RoundUp(128 + 8 * q.protocol.capacityFrames, 64) + 1920 * q.protocol.capacityFrames <= MAX_SECTION_BYTES
    ensures ConnectLayout(q).Success? <==> q.protocol.capacityFrames <= 8701
  {
    hide HeaderStatus;
    LayoutExact(q.protocol);
    RoundUpIsLeast(128 + STAMP_BYTES * q.protocol.capacityFrames, REGION_ALIGNMENT);
  }

  datatype BridgeStatus = BridgeOk | Silence | Unavailable | InvalidOutput | RingFailure

  /** What one tick put into the capture stream. */
  datatype Delivery = Silent | FromRing(session: nat, sequence: nat, bytes: Frame)

  function DeliveredBytes(d: Delivery): Frame {
    match d
    case Silent => Zeros(TICK_BYTES)
    case FromRing(_, _, bytes) => bytes
  }

  /** One finished call moves the cursor past what it delivered. */
  lemma {:induction false} CallAdvancesCursor(s: State, t: State)
    requires Reachable(s) && Reachable(t) && s.cpc.CIdle? && t.cpc.CIdle?
    requires |t.calls| == |s.calls| + 1 && s.calls <= t.calls
    ensures s.mem.consumer <= t.mem.consumer
    ensures var c := t.calls[|s.calls|];
            && (c.status.Ok? || c.status.Underrun? || c.status.SlotUnstable?)
            && (c.status.Ok? ==>
               && s.mem.consumer <= c.sequence < t.mem.consumer && c.sequence < |t.frames|
               && c.output == t.frames[c.sequence])
            && (!c.status.Ok? ==> c.output == Zeros(t.geo.frameBytes))
  {
    hide Reachable, Inv, Oks, Drops, Underruns;
    Conservation(s);
    Conservation(t);
    ReachableInv(t);
    CallAt(t, |s.calls|);
    assert t.calls[..|s.calls|] == s.calls && t.calls[..|s.calls| + 1] == t.calls;
    OnlyThreeOutcomes(t, |s.calls|);
    if t.calls[|s.calls|].status.Ok? { NoTornFrame(t, |s.calls|); }
  }

  /** The last call ended in a way the bridge reports as a ring failure. */
  ghost predicate FailedCall(s: State) {
    0 < |s.calls| && var c := s.calls[|s.calls| - 1]; !c.status.Ok? && !c.status.Underrun? && !c.status.SlotUnstable?
  }

  /** With an accepted geometry the bridge therefore only ever answers a frame or silence. */
  lemma {:induction false} NoRingFailure(s: State)
    requires Reachable(s)
    ensures !FailedCall(s)
  {
    hide Reachable;
    if 0 < |s.calls| { OnlyThreeOutcomes(s, |s.calls| - 1); }
  }

  /** Histories only ever gain sessions and frames. */
  ghost predicate Grows(before: map<nat, seq<Frame>>, after: map<nat, seq<Frame>>) {
    forall e :: e in before ==> e in after && before[e] <= after[e]
  }

  lemma {:induction false} GrowsBy(history: map<nat, seq<Frame>>, session: nat, frames: seq<Frame>)
    requires session in history && history[session] <= frames
    ensures Grows(history, history[session := frames])
  {
  }

  /** The control device as the realtime path sees it: at most one published mapping. */
  class ControlBridge {
    var region: Region?
    var protocol: Header
    var sectionBytes: u64
    ghost var session: nat
    ghost var produced: map<nat, seq<Frame>>

    ghost function Footprint(): set<object>
      reads this
    {
      if region == null then {} else {region, region.stamps, region.audio, region.settled}
    }

    ghost predicate Valid()
      reads this, Footprint()
    {
      && (forall e :: e in produced ==> e <= session)
      && (region != null ==>
            && region.Valid() && region.m.cpc.CIdle?
            && ValidHeader(protocol) && region.geo == GeometryOf(protocol)
            && session in produced && produced[session] == region.settled.frames)
    }

    /** The published geometry passed the connect gate. */
    ghost predicate Accepted()
      reads this
    {
      region != null ==>
        && PlanLayout(protocol).Success? && PlanLayout(protocol).value.totalBytes <= sectionBytes
        && PlanLayout(protocol).value.frameBytes == TICK_BYTES
    }

    /** Sequences below this one are settled in the current session. */
    ghost function Cursor(): nat
      reads this, Footprint()
    {
      if region == null then 0 else region.m.mem.consumer
    }

    /** Frames the running session has counted as dropped. */
    ghost function Dropped(): nat
      reads this, Footprint()
    {
      if region == null then 0 else region.m.mem.drops
    }

    /** The step machine of the running session. */
    ghost function Machine(): Option<State>
      reads this, Footprint()
    {
      if region == null then None else Some(region.m)
    }

    /**
     While a session runs, the delivery is what the one ring call made since the earlier state delivered, or silence if
     it delivered nothing.
     */
    ghost predicate Answered(before: Option<State>, d: Delivery)
      reads this, Footprint()
    {
      region != null ==>
        && before.Some? && OneCall(before.value, region.m)
        && var c := region.m.calls[|before.value.calls|];
           d == if c.status.Ok? then FromRing(session, c.sequence, c.output) else Silent
    }

    /** The session a delivery would belong to: the running one, or the next. */
    ghost function Epoch(): nat
      reads this
    {
      if region == null then session + 1 else session
    }

    /** What the interleaved control device calls the publication; its steps are all this object's methods make. */
    ghost function Published(): ControlDevice.Publication
      reads this
    {
      ControlDevice.Publication(session, region != null)
    }

    /** A frame the running session's producer has begun, settled and recorded in the history. */
    ghost predicate Carries(d: Delivery)
      reads this, Footprint()
    {
      d.FromRing? ==>
        && region != null && d.session == session && d.sequence < Cursor()
        && d.sequence < |region.m.frames| && d.bytes == region.m.frames[d.sequence]
        && session in produced && produced[session] == region.m.frames
    }

    constructor ()
      ensures Valid() && Accepted() && region == null && session == 0 && produced == map[]
    {
      region, sectionBytes, session, produced := null, 0, 0, map[];
      protocol := Header(0, 0, 0, 0, 0, 0, 0, 0, 0, 0, 0);
    }

    /**
     `CompleteConnect` on success publishes a new section; a second connection is refused. `created` says whether
     the section could be created, mapped and initialised.
     */
    method Connect(q: ConnectRequest, created: bool) returns (failure: Option<ConnectError>)
      requires Valid()
      modifies this
      ensures Valid() && (old(Accepted()) ==> Accepted())
      ensures failure.None? ==>
                session == old(session) + 1 && region != null && Init(region.m) && fresh(Footprint()) && Cursor() == 0
                && Dropped() == 0
      ensures failure.Some? ==> session == old(session) && region == old(region) && produced == old(produced)
      ensures failure.None? <==> old(region) == null && ConnectLayout(q).Success? && created
      ensures Grows(old(produced), produced) && ControlDevice.PublicationStep(old(Published()), Published())
    {
      hide ConnectLayout, HeaderStatus, PlanLayout, Reachable, Sized;
      var layout := ConnectLayout(q);
      if layout.Failure? { return Some(layout.error); }
      if region != null { return Some(Busy); }
      if !created { return Some(SectionFailed); }
      ConnectFixesGeometry(q);
      var section := new Region(q.protocol);
      region, protocol, sectionBytes := section, q.protocol, layout.value.totalBytes;
      session := session + 1;
      produced := produced[session := []];
      failure := None;
    }

    /** The published state after a teardown. */
    method Disconnect()
      requires Valid()
      modifies this
      ensures Valid() && Accepted() && region == null && session == old(session) && produced == old(produced)
      ensures ControlDevice.PublicationStep(old(Published()), Published())
    {
      region, sectionBytes := null, 0;
      protocol := Header(0, 0, 0, 0, 0, 0, 0, 0, 0, 0, 0);
    }

    /** The ring call of `VsnWdmControlConsumeFrame` and what its status becomes. */
    method ConsumeFromRing(output: array<byte>) returns (status: BridgeStatus, ghost delivery: Delivery)
      requires Valid() && {output} !! Footprint() && output.Length == TICK_BYTES && region != null
      requires PlanLayout(protocol).Success? && PlanLayout(protocol).value.totalBytes <= sectionBytes
      requires PlanLayout(protocol).value.frameBytes == TICK_BYTES
      modifies output, `produced, Footprint()
      ensures Valid() && old(Cursor()) <= Cursor() && Grows(old(produced), produced)
      ensures region == old(region) && Footprint() == old(Footprint())
      ensures output[..] == DeliveredBytes(delivery)
      ensures status in {BridgeOk, Silence, RingFailure} && (status == BridgeOk <==> delivery.FromRing?)
      ensures Carries(delivery) && (delivery.FromRing? ==> old(Cursor()) <= delivery.sequence)
      ensures status != RingFailure && Answered(old(Machine()), delivery)
    {
      hide Reachable, Inv, HeaderStatus, PlanLayout, Sized, ConsumerStep;
      PrecheckPasses(protocol, sectionBytes, output.Length);
      ghost var before := region.m;
      StartsHere(before);
      var ringStatus, r := region.ConsumeOneRingFrame(protocol, protocol.generation, sectionBytes, output);
      GrowsBy(produced, session, region.m.frames);
      region.Settle();
      produced := produced[session := region.m.frames];
      CallAdvancesCursor(before, region.m);
      if ringStatus.Ok? { return BridgeOk, FromRing(session, r.frameSequence, output[..]); }
      if ringStatus.Underrun? || ringStatus.SlotUnstable? { return Silence, Silent; }
      // any other status would clear the output and be a ring failure; `NoRingFailure` says there is none
      assert false;
    }

    /** `VsnWdmControlConsumeFrame`: a produced frame of this session, or silence. */
    method ConsumeFrame(output: array<byte>) returns (status: BridgeStatus, ghost delivery: Delivery)
      requires Valid() && {output} !! Footprint() && output.Length == TICK_BYTES
      modifies output, `produced, Footprint()
      ensures Valid() && old(Cursor()) <= Cursor() && Grows(old(produced), produced)
      ensures region == old(region) && session == old(session) && Footprint() == old(Footprint())
      ensures Published() == old(Published()) && Accepted() == old(Accepted())
      ensures output[..] == DeliveredBytes(delivery)
      ensures status == BridgeOk <==> delivery.FromRing?
      ensures Carries(delivery) && (delivery.FromRing? ==> old(Cursor()) <= delivery.sequence)
      ensures status == Unavailable <==> region == null
      ensures status == InvalidOutput || status == RingFailure ==> !Accepted()
      ensures Accepted() ==> Answered(old(Machine()), delivery)
      ensures region != null && Accepted() ==>
                Cursor() == old(Cursor()) + (Dropped() - old(Dropped())) + (if status == BridgeOk then 1 else 0)
      ensures region != null && Accepted() && old(Cursor()) < old(region.m.mem.producer) == |region.m.frames| ==>
                && status == BridgeOk
                && delivery.sequence == Max(old(Cursor()), old(region.m.mem.producer) - region.geo.capacity)
    {
      hide Reachable, Inv, HeaderStatus, PlanLayout, Sized, ConsumerStep;
      delivery := Silent;
      if region == null {
        FillZeros(output);
        return Unavailable, Silent;
      }
      var layout := PlanLayout(protocol);
      if layout.Success? && layout.value.totalBytes <= sectionBytes && output.Length == layout.value.frameBytes {
        ghost var before := region.m;
        status, delivery := ConsumeFromRing(output);
        CallAccounts(before, region.m);
        CallDelivers(before, region.m);
        return;
      }
      FillZeros(output);
      status := if layout.Success? && output.Length == layout.value.frameBytes then RingFailure else InvalidOutput;
    }
  }

  method FillZeros(output: array<byte>)
    modifies output
    ensures output[..] == Zeros(output.Length)
  {
    for i := 0 to output.Length
      invariant forall k :: 0 <= k < i ==> output[k] == 0
    {
      output[i] := 0;
    }
  }

  lemma {:induction false} PrecheckPasses(h: Header, sectionBytes: u64, outputBytes: nat)
    requires ValidHeader(h) && PlanLayout(h).Success?
    requires PlanLayout(h).value.totalBytes <= sectionBytes && outputBytes == PlanLayout(h).value.frameBytes
    ensures Precheck(h, h.generation, sectionBytes, outputBytes).None?
  {
  }

  lemma {:induction false} StartsHere(s: State)
    requires Sized(s) && s.cpc.CIdle?
    ensures var t := ConsumerStep(s);
            t.calls == s.calls && t.entryConsumer == s.mem.consumer && t.entryProducer == s.mem.producer
  {
  }
}
