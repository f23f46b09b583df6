/**
 The two endpoints in the driver's own form: methods over the shared section. Before every interlocked
 access the other endpoint may have taken any number of its steps. Each access advances the step machine
 by one step, so every theorem about reachable machine states holds of these methods.
 */
module RingRegion {
  import opened Words
  import opened Wrappers
  import opened Arithmetic
  import opened Protocol
  import opened RegionLayout
  import opened RingMachine
  import opened RingSafety
  import opened RingTheorems
  import opened SessionReset

  datatype ConsumeResult = ConsumeResult(frameSequence: u64, droppedFrames: u64, slotIndex: u32, producedSilence: bool)

  datatype SyncStatus =
    | SyncOk | InvalidGeneration | SessionMismatch | ProducerRegression | ConsumerRegression | ConsumerAhead
    | SyncSequenceOverflow | SlotStateMismatch | SnapshotUnstable

  function GeometryOf(h: Header): Geometry {
    Geometry(h.generation, h.capacityFrames, SAMPLE_BYTES * h.samplesPerFrame)
  }

  /** The checks `ConsumeOneRingFrame` makes before it touches the shared section. */
  function Precheck(h: Header, expectedGeneration: u64, regionBytes: u64, outputBytes: nat): Option<ConsumeStatus> {
    if !ValidHeader(h) then Some(ConsumeStatus.InvalidHeader)
    else if expectedGeneration == 0 || h.generation != expectedGeneration then Some(GenerationMismatch)
    else match PlanLayout(h)
      case Failure(_) => Some(ConsumeStatus.InvalidHeader)
      case Success(layout) =>
        if regionBytes < layout.totalBytes then Some(RegionTooSmall)
        else if outputBytes != layout.frameBytes then Some(OutputSizeMismatch)
        else None
  }

  /** Each refusal by its condition: the header, the generation, the room for the whole layout, the output size. */
  lemma {:induction false} PrecheckExactly(h: Header, expectedGeneration: u64, regionBytes: u64, outputBytes: nat)
    ensures var e := Precheck(h, expectedGeneration, regionBytes, outputBytes);
            var session := ValidHeader(h) && expectedGeneration != 0 && h.generation == expectedGeneration;
            && (e == Some(ConsumeStatus.InvalidHeader) <==> !ValidHeader(h) || (session && IdealTotal(h) > U64_MAX))
            && (e == Some(GenerationMismatch) <==> ValidHeader(h) && !session)
            && (e == Some(RegionTooSmall) <==> session && regionBytes < IdealTotal(h) <= U64_MAX)
            && (e == Some(OutputSizeMismatch) <==>
               session && IdealTotal(h) <= regionBytes && outputBytes != 4 * h.samplesPerFrame)
            && (e.None? <==> session && IdealTotal(h) <= regionBytes && outputBytes == 4 * h.samplesPerFrame)
  {
    if ValidHeader(h) { LayoutExact(h); }
    hide HeaderStatus, PlanLayout;
  }

  /** A region that passes covers the cursors and every slot's stamp and frame. */
  lemma {:induction false} RegionCoversSlots(
    h: Header, expectedGeneration: u64, regionBytes: u64, outputBytes: nat, slot: nat)
    requires Precheck(h, expectedGeneration, regionBytes, outputBytes).None? && slot < h.capacityFrames
    ensures PlanLayout(h).Success?
    ensures var l := PlanLayout(h).value;
            && l.cursorOffset + CURSOR_BYTES <= regionBytes
            && 0 <= StampRange(l, slot).0 < StampRange(l, slot).1 <= regionBytes
            && 0 <= FrameRange(l, slot).0 < FrameRange(l, slot).1 <= regionBytes
  {
    LayoutExact(h);
    LayoutAreasDisjoint(h, PlanLayout(h).value);
    ValidHeaderFrameSize(h);
    hide HeaderStatus, PlanLayout;
  }

  // ----- what the other endpoint may do meanwhile -----

  /** t is reached from s by producer steps alone. */
  ghost predicate ProducerRan(s: State, t: State) {
    exists chain: seq<State> :: ProducerChain(s, t, chain)
  }

  ghost predicate ProducerChain(s: State, t: State, chain: seq<State>) {
    && 0 < |chain| && chain[0] == s && chain[|chain| - 1] == t
    && forall i :: 0 <= i < |chain| - 1 ==> ProducerMoves(chain[i], chain[i + 1])
  }

  /** t is reached from s by consumer steps alone. */
  ghost predicate ConsumerRan(s: State, t: State) {
    exists chain: seq<State> :: ConsumerChain(s, t, chain)
  }

  ghost predicate ConsumerChain(s: State, t: State, chain: seq<State>) {
    && 0 < |chain| && chain[0] == s && chain[|chain| - 1] == t
    && forall i :: 0 <= i < |chain| - 1 ==> Sized(chain[i]) && chain[i + 1] == ConsumerStep(chain[i])
  }

  /** The producer changes neither the consumer's fields nor its program counter and history, and never retreats. */
  ghost predicate ProducerOnly(s: State, t: State) {
    && t.geo == s.geo && t.cpc == s.cpc && t.calls == s.calls && s.frames <= t.frames
    && t.entryProducer == s.entryProducer && t.entryConsumer == s.entryConsumer
    && t.mem.generation == s.mem.generation && t.mem.consumer == s.mem.consumer && s.mem.producer <= t.mem.producer
  }

  lemma {:induction false} ProducerMoveFrame(s: State, t: State)
    requires Reachable(s) && ProducerMoves(s, t)
    ensures Reachable(t) && Sized(t) && ProducerOnly(s, t)
  {
    hide Reachable, Sized, Inv;
    ReachableNext(s, t);
    ReachableInv(s);
    assert s.mem.producer <= t.mem.producer by { NextExtends(s, t); }
  }

  lemma {:induction false} ProducerRanFrame(s: State, t: State, chain: seq<State>)
    requires Reachable(s) && ProducerChain(s, t, chain)
    ensures Reachable(t) && Sized(t) && ProducerOnly(s, t)
    decreases |chain|
  {
    hide Reachable, ProducerMoves, Sized;
    if |chain| == 1 {
      ReachableInv(s);
      InvSized(s);
    } else {
      var u := chain[|chain| - 2];
      assert ProducerChain(s, u, chain[..|chain| - 1]);
      ProducerRanFrame(s, u, chain[..|chain| - 1]);
      ProducerMoveFrame(u, t);
    }
  }

  lemma {:induction false} InvSized(s: State)
    requires Inv(s)
    ensures Sized(s)
  {
  }

  /** The consumer changes none of the producer's fields, its program counter and its history. */
  lemma {:induction false} ConsumerMoveFrame(s: State)
    requires Reachable(s)
    ensures Sized(s) && Reachable(ConsumerStep(s))
    ensures var t := ConsumerStep(s);
            && t.geo == s.geo && t.ppc == s.ppc && t.frames == s.frames && t.newest == s.newest
            && t.mem.producer == s.mem.producer && t.mem.stamps == s.mem.stamps && t.mem.audio == s.mem.audio
  {
    hide Reachable, Inv, Sized, SnapshotStep, AccountStep, CopyStep, DoneStep;
    ReachableInv(s);
    InvSized(s);
    ReachableNext(s, ConsumerStep(s));
  }

  lemma {:induction false} ConsumerRanFrame(s: State, t: State, chain: seq<State>)
    requires Reachable(s) && ConsumerChain(s, t, chain)
    ensures Reachable(t)
    ensures t.geo == s.geo && t.ppc == s.ppc && t.frames == s.frames && t.newest == s.newest
    ensures t.mem.producer == s.mem.producer && t.mem.stamps == s.mem.stamps && t.mem.audio == s.mem.audio
    decreases |chain|
  {
    hide Reachable, ConsumerStep, Sized;
    if |chain| > 1 {
      var u := chain[|chain| - 2];
      assert ConsumerChain(s, u, chain[..|chain| - 1]);
      ConsumerRanFrame(s, u, chain[..|chain| - 1]);
      ConsumerMoveFrame(u);
    }
  }

  /** Only the consumer has moved. */
  ghost predicate SameProduction(s: State, t: State) {
    && Sized(t) && t.geo == s.geo && t.ppc == s.ppc && t.frames == s.frames && t.newest == s.newest
    && t.mem.producer == s.mem.producer && t.mem.stamps == s.mem.stamps && t.mem.audio == s.mem.audio
  }

  /** The producer is about to publish its frame count. */
  ghost predicate ProducerMayPublish(s: State, next: u64) { s.ppc == PPublishGeneration && next == |s.frames| }

  ghost predicate ProducerPublished(s: State, t: State, status: SyncStatus) {
    t.frames == s.frames && t.ppc == (if status.SyncOk? then PIdle else PStuck)
  }

  /**
   The producer tried to publish a count its protocol does not call for. The consumer is never past what the
   producer has published, so a count that is no regression is stored.
   */
  ghost predicate ProducerStrayed(s: State, t: State, next: u64, status: SyncStatus) {
    SameProduction(s, t) && status == (if next < s.mem.producer then ProducerRegression else SyncOk)
  }

  datatype CursorField = FGeneration | FProducer | FConsumer | FDrops | FUnderruns

  function FieldOf(mem: Memory, field: CursorField): u64 {
    match field
    case FGeneration => mem.generation
    case FProducer => mem.producer
    case FConsumer => mem.consumer
    case FDrops => mem.drops
    case FUnderruns => mem.underruns
  }

  /** Still inside the same call. */
  ghost predicate SameCall(s: State, t: State) {
    && Sized(t) && t.geo == s.geo && t.calls == s.calls && t.entryProducer == s.entryProducer
    && t.entryConsumer == s.entryConsumer
  }

  /** The consumer is about to publish: past dropped frames, or past the frame just copied. */
  ghost predicate ConsumerMayPublish(s: State, next: u64) {
    (s.cpc.CSkipGeneration? && next == s.cpc.w.normalized) || (s.cpc.CDoneGeneration? && next == s.cpc.w.normalized + 1)
  }

  /** Between s and t the consumer published or failed to; `before` is the state of the last access. */
  ghost predicate ConsumerPublished(s: State, before: State, t: State, status: SyncStatus)
    requires s.cpc.CSkipGeneration? || s.cpc.CDoneGeneration?
  {
    && SameCall(s, before)
    && (status.SyncOk? ==>
          && t == ConsumerStep(before)
          && before.cpc == (if s.cpc.CSkipGeneration? then CSkipStore(s.cpc.w) else CDoneStore(s.cpc.w, s.cpc.out)))
    && (!status.SyncOk? ==>
       t == Fail(before, CursorPublishFailed, if s.cpc.CSkipGeneration? then 0 else s.cpc.w.dropped))
  }

  /**
   The consumer tried to publish a cursor its protocol does not call for; the producer may have moved on meanwhile.
   */
  ghost predicate ConsumerStrayed(s: State, t: State, next: u64, status: SyncStatus) {
    && SamePoint(s, t) && ProducerOnly(s, t)
    && status ==
       (if next < s.mem.consumer then ConsumerRegression else if next > t.mem.producer then ConsumerAhead else SyncOk)
  }

  /** Only the producer has moved. */
  ghost predicate SamePoint(s: State, t: State) { SameCall(s, t) && t.cpc == s.cpc }

  lemma {:induction false} InitialReachable(s: State)
    requires Init(s)
    ensures Reachable(s)
  {
    assert Run([s]) && [s][|[s]| - 1] == s;
  }

  // ----- the shared section -----

  /** The frames a session is known to have produced; a region never loses them. */
  class FrameHistory {
    ghost var frames: seq<Frame>

    constructor ()
      ensures frames == []
    {
      frames := [];
    }
  }

  class Region {
    const geo: Geometry
    var generation: u64
    var producer: u64
    var consumer: u64
    var drops: u64
    var underruns: u64
    const stamps: array<u64>
    const audio: array<byte>
    const settled: FrameHistory
    ghost var m: State
    /** The cursor block after each store of its initialisation. */
    ghost var setup: seq<Cursors>

    ghost predicate Shaped()
      reads this, settled
    {
      && Reachable(m) && Sized(m) && m.geo == geo && ValidGeometry(geo)
      && stamps.Length == geo.capacity && audio.Length == Offset(geo.capacity, geo.frameBytes)
      && settled.frames <= m.frames
    }

    /** The section holds exactly what some interleaving of the two protocols has put there. */
    ghost predicate Valid()
      reads this, stamps, audio, settled
    {
      Shaped() && m.mem == Memory(generation, producer, consumer, drops, underruns, stamps[..], audio[..])
    }

    /** The same but for the two cursors, which hold these values. */
    ghost predicate ValidButFor(producerWord: u64, consumerWord: u64)
      reads this, stamps, audio, settled
    {
      && Shaped() && producer == producerWord && consumer == consumerWord
      && m.mem == Memory(generation, m.mem.producer, m.mem.consumer, drops, underruns, stamps[..], audio[..])
    }

    /** A zeroed section and `InitializeCursorSession` on it: the marker, the four fields, then the generation. */
    constructor (h: Header)
      requires ValidHeader(h)
      ensures Valid() && fresh(stamps) && fresh(audio) && fresh(settled) && geo == GeometryOf(h) && Init(m)
      ensures settled.frames == []
      ensures |setup| == 7 && forall n :: 0 <= n <= 6 ==>
                setup[n] == AfterStores(Cursors(0, 0, 0, 0, 0), h.generation, n)
      ensures NeverMixes(setup[0], h.generation)
    {
      ValidHeaderFrameSize(h);
      var g := GeometryOf(h);
      OffsetIsProduct(g.capacity, g.frameBytes);
      QuotientBound(g.capacity, g.frameBytes, 0);
      geo := g;
      generation, producer, consumer, drops, underruns := 0, 0, 0, 0, 0;
      stamps := new u64[g.capacity](i => 0);
      audio := new byte[g.capacity * g.frameBytes](i => 0);
      settled := new FrameHistory();
      m := State(g, Memory(g.generation, 0, 0, 0, 0, seq(g.capacity, i => 0), Zeros(Offset(g.capacity, g.frameBytes))),
                 PIdle, [], seq(g.capacity, i => -1), CIdle, [], 0, 0);
      setup := [];
      new;
      var accepted := InitializeCursorSession(h.generation);
      ResetNeverMixes(setup[0], h.generation);
      assert stamps[..] == m.mem.stamps && audio[..] == m.mem.audio;
      InitialReachable(m);
    }

    ghost function Block(): Cursors
      reads this
    {
      Cursors(generation, producer, consumer, drops, underruns)
    }

    /** Refuses generation zero; otherwise the marker, the four fields and the generation are stored in this order. */
    method InitializeCursorSession(g: u64) returns (accepted: bool)
      modifies `generation, `producer, `consumer, `drops, `underruns, `setup
      ensures accepted <==> g != 0
      ensures !accepted ==> Block() == old(Block())
      ensures accepted ==>
                && Block() == Cursors(g, 0, 0, 0, 0) && |setup| == 7
                && forall n :: 0 <= n <= 6 ==> setup[n] == AfterStores(old(Block()), g, n)
    {
      setup := [Block()];
      if g == 0 { return false; }
      generation := 0;
      setup := setup + [Block()];
      producer := 0;
      setup := setup + [Block()];
      consumer := 0;
      setup := setup + [Block()];
      drops := 0;
      setup := setup + [Block()];
      underruns := 0;
      setup := setup + [Block()];
      generation := g;
      setup := setup + [Block()];
      accepted := true;
    }

    /**
     The producer runs between two accesses of the consumer. Callers rely on the contract alone, which
     admits every number of producer steps; the body is the shortest of them.
     */
    method ProducerInterference()
      requires Valid()
      modifies this, stamps, audio
      ensures m.mem == Memory(generation, producer, consumer, drops, underruns, stamps[..], audio[..])
      ensures ProducerRan(old(m), m)
    {
      assert ProducerChain(m, m, [m]);
    }

    method OtherProducerTurns()
      requires Valid()
      modifies this, stamps, audio
      ensures Valid() && SamePoint(old(m), m) && ProducerOnly(old(m), m)
    {
      hide Reachable, Sized;
      ghost var before := m;
      ProducerInterference();
      ghost var chain: seq<State> :| ProducerChain(before, m, chain);
      ProducerRanFrame(before, m, chain);
    }

    /** `AtomicLoad64` of one cursor field by the consumer, as its machine's next access. */
    method Load(field: CursorField) returns (value: u64, ghost before: State)
      requires Valid() && OnlyReads(m.cpc)
      modifies this, stamps, audio
      ensures Valid() && SamePoint(old(m), before) && m == ConsumerStep(before)
      ensures value == FieldOf(before.mem, field)
    {
      hide Reachable, Sized, ConsumerStep, ProducerOnly, SamePoint;
      value, before := LoadAs(field, true);
    }

    /** The same, or a load outside the protocol, which the machine does not take part in. */
    method LoadAs(field: CursorField, ghost step: bool) returns (value: u64, ghost before: State)
      requires Valid() && (step ==> OnlyReads(m.cpc))
      modifies this, stamps, audio
      ensures Valid() && SamePoint(old(m), before) && ProducerOnly(old(m), before)
      ensures m == if step then ConsumerStep(before) else before
      ensures value == FieldOf(before.mem, field)
    {
      hide Reachable, Sized, ConsumerStep, ProducerOnly;
      OtherProducerTurns();
      value := match field
        case FGeneration => generation
        case FProducer => producer
        case FConsumer => consumer
        case FDrops => drops
        case FUnderruns => underruns;
      before := m;
      if step {
        ReadKeepsMemory(m);
        Advance();
      }
    }

    /** One pass of the snapshot loop. */
    method ReadOnce(ghost attempt: nat)
      returns (generationBefore: u64, generationAfter: u64, snap: Cursors, ghost before: State)
      requires Valid() && m.cpc == CSnapGeneration(attempt)
      modifies this, stamps, audio
      ensures Valid() && SameCall(old(m), before)
      ensures generationBefore == 0 ==> m == Fail(before, CursorReadFailed)
      ensures generationBefore != 0 ==>
                && snap.generation == generationBefore && before.cpc == CSnapRecheck(attempt, snap)
                && generationAfter == before.mem.generation && m == ConsumerStep(before)
    {
      hide Reachable, Sized, PlanCursors, Inv, AccountStep, CopyStep, DoneStep;
      snap, generationAfter := Cursors(0, 0, 0, 0, 0), 0;
      generationBefore, before := Load(FGeneration);
      if generationBefore == 0 { return; }
      snap := ReadFields(attempt, generationBefore);
      generationAfter, before := Load(FGeneration);
    }

    /** The four loads between the two generation loads. */
    method ReadFields(ghost attempt: nat, generationBefore: u64) returns (snap: Cursors)
      requires Valid() && m.cpc == CSnapProducer(attempt, generationBefore)
      modifies this, stamps, audio
      ensures Valid() && SameCall(old(m), m) && snap.generation == generationBefore
      ensures m.cpc == CSnapRecheck(attempt, snap)
    {
      hide Reachable, Sized, PlanCursors, Inv, AccountStep, CopyStep, DoneStep, Fail, Retry, AfterSnapshot;
      ghost var before;
      var p, c, d, u;
      p, c := ReadEndpoints(attempt, generationBefore);
      d, before := Load(FDrops);
      u, before := Load(FUnderruns);
      snap := Cursors(generationBefore, p, c, d, u);
    }

    method ReadEndpoints(ghost attempt: nat, ghost generationBefore: u64) returns (p: u64, c: u64)
      requires Valid() && m.cpc == CSnapProducer(attempt, generationBefore)
      modifies this, stamps, audio
      ensures Valid() && SameCall(old(m), m) && m.cpc == CSnapDrops(attempt, generationBefore, p, c)
    {
      hide Reachable, Sized, PlanCursors, Inv, AccountStep, CopyStep, DoneStep, Fail, Retry, AfterSnapshot;
      ghost var before;
      p, before := Load(FProducer);
      c, before := Load(FConsumer);
    }

    /** `ReadStableCursorSnapshot`, as the consumer calls it. */
    method ReadStableCursorSnapshot() returns (status: SyncStatus, snap: Cursors, ghost before: State)
      requires Valid() && m.cpc == CSnapGeneration(0)
      modifies this, stamps, audio
      ensures Valid() && (status.SyncOk? || status.InvalidGeneration? || status.SnapshotUnstable?)
      ensures SameCall(old(m), before)
      ensures status.SyncOk? ==> m == AfterSnapshot(before, snap)
      ensures !status.SyncOk? ==> m == Fail(before, CursorReadFailed)
    {
      hide Reachable, Sized, PlanCursors, Inv, AccountStep, CopyStep, DoneStep;
      snap := Cursors(0, 0, 0, 0, 0);
      before := m;
      var attempt := 0;
      while attempt < SNAPSHOT_ATTEMPTS
        invariant 0 <= attempt <= SNAPSHOT_ATTEMPTS && Valid() && SameCall(old(m), before)
        invariant attempt < SNAPSHOT_ATTEMPTS ==> m.cpc == CSnapGeneration(attempt) && SameCall(old(m), m)
        invariant attempt == SNAPSHOT_ATTEMPTS ==> m == Fail(before, CursorReadFailed)
      {
        var generationBefore, generationAfter;
        generationBefore, generationAfter, snap, before := ReadOnce(attempt);
        if generationBefore == 0 { return InvalidGeneration, snap, before; }
        if !(generationBefore != generationAfter || snap.producer < snap.consumer) { return SyncOk, snap, before; }
        attempt := attempt + 1;
      }
      status := SnapshotUnstable;
    }

    /** Everything produced so far becomes part of the settled history. */
    ghost method Settle()
      requires Valid()
      modifies settled
      ensures Valid() && settled.frames == m.frames
    {
      hide Reachable, Sized;
      settled.frames := m.frames;
    }

    /** One consumer step of the machine; the caller performs the access itself. */
    ghost method Advance()
      requires Reachable(m)
      modifies `m
      ensures Sized(old(m)) && Sized(m) && Reachable(m) && m == ConsumerStep(old(m)) && m.geo == old(m.geo)
      ensures m.frames == old(m.frames)
    {
      ConsumerMoveFrame(m);
      m := ConsumerStep(m);
    }

    /** `AtomicStore64` of the consumer cursor, with or without the machine. */
    method StoreConsumer(next: u64, ghost step: bool) returns (ghost before: State)
      requires Valid()
      requires step ==>
                 (m.cpc.CSkipStore? && next == m.cpc.w.normalized) ||
                 (m.cpc.CDoneStore? && next == m.cpc.w.normalized + 1)
      modifies this, stamps, audio
      ensures SamePoint(old(m), before) && ProducerOnly(old(m), before)
      ensures step ==> Valid() && m == ConsumerStep(before)
      ensures !step ==> m == before && ValidButFor(m.mem.producer, next)
    {
      hide Reachable, Sized, Inv, SnapshotStep, CopyStep, ProducerOnly;
      OtherProducerTurns();
      before := m;
      consumer := next;
      if step { Advance(); }
    }

    /**
     `PublishConsumerSequence` on any arguments. Where the protocol calls for the publication it is the machine's;
     otherwise it answers by the cursors, and a store it lets through is the only thing that changes.
     */
    method PublishConsumerSequence(expectedGeneration: u64, next: u64) returns (status: SyncStatus, ghost before: State)
      requires Valid()
      modifies this, stamps, audio
      ensures expectedGeneration == 0 ==> Valid() && status == InvalidGeneration && m == old(m)
      ensures expectedGeneration != 0 && next > MAX_FRAME_SEQUENCE + 1 ==>
                Valid() && status == SyncSequenceOverflow && m == old(m)
      ensures expectedGeneration != 0 && next <= MAX_FRAME_SEQUENCE + 1 && expectedGeneration != geo.generation ==>
                Valid() && status == SessionMismatch && SamePoint(old(m), m)
      ensures expectedGeneration == geo.generation && next <= MAX_FRAME_SEQUENCE + 1 ==>
                if ConsumerMayPublish(old(m), next) then Valid() && ConsumerPublished(old(m), before, m, status)
                else
                  && ConsumerStrayed(old(m), m, next, status)
                  && ValidButFor(m.mem.producer, if status.SyncOk? then next else m.mem.consumer)
    {
      hide Reachable, Sized, Inv, SamePoint, ConsumerPublished, ConsumerMayPublish, ConsumerStrayed, ProducerOnly;
      before := m;
      if expectedGeneration == 0 { return InvalidGeneration, before; }
      if next > MAX_FRAME_SEQUENCE + 1 { return SyncSequenceOverflow, before; }
      if expectedGeneration != geo.generation {
        // the load below sees the session's own generation, so the comparison with a foreign one fails
        OtherProducerTurns();
        SessionGeneration();
        assert generation != expectedGeneration;
        return SessionMismatch, before;
      }
      status, before := PublishNext(expectedGeneration, next, ConsumerMayPublish(m, next));
    }

    /** The section always carries its own session's generation. */
    lemma {:induction false} SessionGeneration()
      requires Valid()
      ensures generation == geo.generation != 0
    {
      ReachableInv(m);
      hide Reachable;
    }

    /** The accesses of a publication with the session's own generation. */
    method PublishNext(expectedGeneration: u64, next: u64, ghost step: bool)
      returns (status: SyncStatus, ghost before: State)
      requires Valid() && expectedGeneration == geo.generation && next <= MAX_FRAME_SEQUENCE + 1
      requires step == ConsumerMayPublish(m, next)
      modifies this, stamps, audio
      ensures step ==> Valid() && ConsumerPublished(old(m), before, m, status)
      ensures !step ==>
                && ConsumerStrayed(old(m), m, next, status)
                && ValidButFor(m.mem.producer, if status.SyncOk? then next else m.mem.consumer)
    {
      hide Reachable, Sized, PlanCursors, SlotOf, Inv, SnapshotStep, CopyStep;
      before := m;
      var currentGeneration, current, published;
      SessionGeneration();
      currentGeneration, before := LoadAs(FGeneration, step);
      if currentGeneration != expectedGeneration { return SessionMismatch, before; }
      current, before := LoadAs(FConsumer, step);
      published, before := LoadAs(FProducer, step);
      if next < current { return ConsumerRegression, before; }
      if next > published { return ConsumerAhead, before; }
      before := StoreConsumer(next, step);
      status := SyncOk;
    }

    /** `RecordOverrunDrops`: one interlocked addition. */
    method RecordOverrunDrops(dropped: u64) returns (ghost before: State)
      requires Valid() && m.cpc.CRecordDrops? && dropped == m.cpc.w.dropped
      modifies this, stamps, audio
      ensures Valid() && SameCall(old(m), before) && m == AfterDrops(before, old(m.cpc).w)
    {
      hide Reachable, Sized, PlanCursors, SlotOf, SnapshotStep, CopyStep, DoneStep;
      OtherProducerTurns();
      before := m.(mem := m.mem.(drops := Wrap64(m.mem.drops + dropped)));
      SizedIgnoresCounters(m, before);
      drops := Wrap64(drops + dropped);
      Advance();
    }

    /** `RecordUnderrun`: one interlocked increment, the last access of an empty call. */
    method RecordUnderrun()
      requires Valid() && m.cpc.CRecordUnderrun?
      modifies this, stamps, audio
      ensures Valid()
      ensures var w := old(m.cpc).w;
              CallEnds(old(m), m, Underrun, w.normalized, w.dropped, w.consumerSlot, true, Zeros(geo.frameBytes))
    {
      hide Reachable, Sized, PlanCursors, SlotOf, SnapshotStep, CopyStep, DoneStep;
      OtherProducerTurns();
      underruns := Wrap64(underruns + 1);
      Advance();
    }

    /** `CopyRingBytes` out of one slot, a byte at a time. */
    method CopyRingBytes(output: array<byte>, slot: nat)
      requires Valid() && m.cpc.CCopy? && m.cpc.out == [] && slot == SlotOf(geo, m.cpc.w.normalized)
      requires output.Length == geo.frameBytes && output != audio && output as object != stamps
      modifies this, stamps, audio, output
      ensures Valid() && SameCall(old(m), m) && m.cpc == CCopy(old(m.cpc).w, output[..])
    {
      hide Reachable, Sized, PlanCursors, SnapshotStep, AccountStep, DoneStep;
      OffsetOrder(slot, geo.capacity, geo.frameBytes);
      OffsetIsProduct(slot, geo.frameBytes);
      var i := 0;
      while i < geo.frameBytes
        invariant 0 <= i <= geo.frameBytes
        invariant Valid() && SameCall(old(m), m) && m.cpc == CCopy(old(m.cpc).w, output[..i])
      {
        OtherProducerTurns();
        output[i] := audio[slot * geo.frameBytes + i];
        Advance();
        assert output[..i + 1] == output[..i] + [output[i]];
        i := i + 1;
      }
      assert output[..i] == output[..];
    }

    method ZeroRingBytes(output: array<byte>)
      requires output != audio && output as object != stamps
      modifies output
      ensures output[..] == Zeros(output.Length)
    {
      for i := 0 to output.Length
        invariant forall k :: 0 <= k < i ==> output[k] == 0
      {
        output[i] := 0;
      }
    }

    /** The guarded copy: stamp, bytes, stamp again, then the consumer cursor. */
    method ReadSlot(expectedGeneration: u64, w: Window, output: array<byte>)
      returns (status: ConsumeStatus, r: ConsumeResult)
      requires Valid() && m.cpc == CStampBefore(w) && expectedGeneration == geo.generation
      requires output.Length == geo.frameBytes && output != audio && output as object != stamps
      modifies this, stamps, audio, output
      ensures Valid() && Returned(old(m), m, status, r, output[..])
    {
      hide Reachable, Sized, Inv, PlanCursors, SlotOf, SnapshotStep, AccountStep;
      var sequence := w.normalized;
      var slot := SlotIndexForSequence(sequence);
      r := ConsumeResult(sequence, w.dropped, slot, true);
      var expectedStamp := StableStamp(sequence);
      var stamp, before := LoadStamp(slot);
      if stamp != expectedStamp {
        ZeroRingBytes(output);
        return SlotUnstable, r;
      }
      CopyRingBytes(output, slot);
      stamp, before := LoadStamp(slot);
      if stamp != expectedStamp {
        ZeroRingBytes(output);
        return SlotUnstable, r;
      }
      if sequence + 1 > MAX_FRAME_SEQUENCE + 1 {
        ZeroRingBytes(output);
        return CursorPublishFailed, ConsumeResult(0, w.dropped, 0, false);
      }
      var published := PublishFrame(expectedGeneration, w, output);
      if !published { return CursorPublishFailed, ConsumeResult(0, w.dropped, 0, false); }
      return Ok, r.(producedSilence := false);
    }

    /** The cursor moves past the copied frame, or the output is cleared. */
    method PublishFrame(expectedGeneration: u64, w: Window, output: array<byte>) returns (published: bool)
      requires Valid() && m.cpc == CDoneGeneration(w, output[..]) && expectedGeneration == geo.generation
      requires w.normalized + 1 <= MAX_FRAME_SEQUENCE + 1
      requires output.Length == geo.frameBytes && output != audio && output as object != stamps
      modifies this, stamps, audio, output
      ensures Valid()
      ensures if published
              then CallEnds(old(m), m, Ok, w.normalized, w.dropped, SlotOf(geo, w.normalized), false, output[..])
              else CallEnds(old(m), m, CursorPublishFailed, 0, w.dropped, 0, false, output[..])
    {
      hide Reachable, Sized, Inv, PlanCursors, SlotOf, SnapshotStep, AccountStep, CopyStep;
      var status, before := PublishConsumerSequence(expectedGeneration, w.normalized + 1);
      published := status.SyncOk?;
      if !published { ZeroRingBytes(output); }
    }

    /** Publishes and counts an overrun before the frame itself is read. */
    method AccountDrops(expectedGeneration: u64, w: Window, ghost start: State)
      returns (status: Option<ConsumeStatus>, ghost before: State)
      requires Valid() && Sized(start) && SameCall(start, m) && expectedGeneration == geo.generation
      requires w.dropped != 0 && w.normalized <= MAX_FRAME_SEQUENCE + 1 && m.cpc == CSkipGeneration(w)
      modifies this, stamps, audio
      ensures Valid() && SameCall(start, before)
      ensures status.None? ==> m == AfterDrops(before, w)
      ensures status.Some? ==> status.value == CursorPublishFailed && m == Fail(before, CursorPublishFailed)
    {
      hide Reachable, Sized, Inv, PlanCursors, SlotOf, AfterDrops;
      var published;
      published, before := PublishConsumerSequence(expectedGeneration, w.normalized);
      if !published.SyncOk? { return Some(CursorPublishFailed), before; }
      assert m.cpc == CRecordDrops(w);
      before := RecordOverrunDrops(w.dropped);
      status := None;
    }

    /** What follows the accounting: silence for an empty ring, otherwise the guarded copy. */
    method FinishCall(expectedGeneration: u64, w: Window, output: array<byte>, ghost before: State)
      returns (status: ConsumeStatus, r: ConsumeResult)
      requires Valid() && Sized(before) && before.geo == geo && m == AfterDrops(before, w)
      requires expectedGeneration == geo.generation
      requires output.Length == geo.frameBytes && output != audio && output as object != stamps
      modifies this, stamps, audio, output
      ensures Valid() && Returned(before, m, status, r, output[..])
    {
      hide Reachable, Sized, Inv, PlanCursors, SlotOf, ConsumerStep;
      if w.buffered == 0 {
        ZeroRingBytes(output);
        RecordUnderrun();
        return Underrun, ConsumeResult(w.normalized, w.dropped, w.consumerSlot, true);
      }
      if !CanEncode(w.normalized) {
        ZeroRingBytes(output);
        return SequenceOverflow, ConsumeResult(0, w.dropped, 0, false);
      }
      status, r := ReadSlot(expectedGeneration, w, output);
    }

    ghost method StartCall()
      requires Valid() && m.cpc.CIdle?
      modifies `m
      ensures Valid() && m == ConsumerStep(old(m)) && m.cpc == CSnapGeneration(0) && m.calls == old(m.calls)
    {
      hide Reachable, Sized, Inv;
      Advance();
    }

    /**
     `ConsumeOneRingFrame`: at most one complete frame, with the result structure filled as the driver
     fills it. Either an argument check fails and nothing happens, or the machine completes one call with
     exactly the returned values.
     */
    method ConsumeOneRingFrame(h: Header, expectedGeneration: u64, regionBytes: u64, output: array<byte>)
      returns (status: ConsumeStatus, r: ConsumeResult)
      requires Valid() && m.cpc.CIdle?
      requires ValidHeader(h) ==> geo == GeometryOf(h)
      requires output != audio && output as object != stamps
      modifies this, stamps, audio, output
      ensures Valid()
      ensures Precheck(h, expectedGeneration, regionBytes, output.Length).Some? ==>
                && status == Precheck(h, expectedGeneration, regionBytes, output.Length).value
                && m == old(m) && output[..] == old(output[..]) && r == ConsumeResult(0, 0, 0, false)
      ensures Precheck(h, expectedGeneration, regionBytes, output.Length).None? ==>
                Returned(ConsumerStep(old(m)), m, status, r, output[..])
      ensures !ValidHeader(h) || regionBytes < IdealTotal(h) ==> m == old(m) && output[..] == old(output[..])
    {
      hide Reachable, Sized, Inv, Precheck, Returned, ConsumerStep, HeaderStatus;
      PrecheckExactly(h, expectedGeneration, regionBytes, output.Length);
      var early := Precheck(h, expectedGeneration, regionBytes, output.Length);
      if early.Some? { return early.value, ConsumeResult(0, 0, 0, false); }
      PrecheckPassed(h, expectedGeneration, regionBytes, output.Length);
      status, r := RunCall(h, expectedGeneration, output);
    }

    /** The part of `ConsumeOneRingFrame` that touches the region. */
    method RunCall(h: Header, expectedGeneration: u64, output: array<byte>)
      returns (status: ConsumeStatus, r: ConsumeResult)
      requires Valid() && m.cpc.CIdle?
      requires ValidHeader(h) && geo == GeometryOf(h) && h.generation == expectedGeneration
      requires output.Length == geo.frameBytes
      requires output != audio && output as object != stamps
      modifies this, stamps, audio, output
      ensures Valid() && Returned(ConsumerStep(old(m)), m, status, r, output[..])
    {
      hide Reachable, Sized, Inv, PlanCursors, SlotOf, WindowOf, HeaderStatus, AccountStep, CopyStep, DoneStep;
      r := ConsumeResult(0, 0, 0, false);
      StartCall();
      ghost var start := m;
      var snapped, snap, before := ReadStableCursorSnapshot();
      if !snapped.SyncOk? { return CursorReadFailed, r; }
      if snap.generation != expectedGeneration { return GenerationMismatch, r; }
      var plan := PlanWindow(h, snap);
      assert plan == PlanCursors(geo.generation, geo.capacity, snap) by { PlanOfValid(h, snap); }
      if plan == Failure(FrameSequenceOverflow) { return SequenceOverflow, r; }
      if plan.Failure? { return RingPlanFailed, r; }
      status, r := RunWindow(expectedGeneration, snap, plan.value, output, start, before);
    }

    /** The planned window is accounted for and then read from. */
    method RunWindow(
      expectedGeneration: u64, snap: Cursors, w: Window, output: array<byte>, ghost start: State, ghost snapped: State)
      returns (status: ConsumeStatus, r: ConsumeResult)
      requires Valid() && Sized(start) && SameCall(start, snapped) && m == AfterSnapshot(snapped, snap)
      requires geo == start.geo
      requires snap.generation == expectedGeneration == geo.generation
      requires PlanCursors(geo.generation, geo.capacity, snap) == Success(w)
      requires output.Length == geo.frameBytes && output != audio && output as object != stamps
      modifies this, stamps, audio, output
      ensures Valid() && Returned(start, m, status, r, output[..])
    {
      hide Reachable, Sized, Inv, PlanCursors, SlotOf;
      r := ConsumeResult(0, 0, 0, false);
      ghost var before := snapped;
      if w.dropped != 0 {
        if w.normalized > MAX_FRAME_SEQUENCE + 1 { return CursorPublishFailed, r; }
        var failed;
        failed, before := AccountDrops(expectedGeneration, w, start);
        if failed.Some? { return failed.value, r; }
      }
      status, r := FinishCall(expectedGeneration, w, output, before);
    }

    function SlotIndexForSequence(sequence: u64): (slot: u32)
      requires ValidGeometry(geo)
      ensures slot == SlotOf(geo, sequence)
    {
      sequence % geo.capacity
    }

    /** `AtomicLoad64` of the stamp guarding the wanted frame. */
    method LoadStamp(slot: nat) returns (value: u64, ghost before: State)
      requires Valid() && (m.cpc.CStampBefore? || m.cpc.CCopy?) && slot == SlotOf(geo, m.cpc.w.normalized)
      modifies this, stamps, audio
      ensures Valid() && SamePoint(old(m), before) && m == ConsumerStep(before) && value == before.mem.stamps[slot]
    {
      hide Reachable, ConsumerStep, Inv;
      OtherProducerTurns();
      value := stamps[slot];
      before := m;
      ReadKeepsMemory(m);
      Advance();
    }

    // ----- the producing process -----

    /** The consumer runs between two accesses of the producer; see `ProducerInterference`. */
    method ConsumerInterference()
      requires Valid()
      modifies `consumer, `drops, `underruns, `m
      ensures m.mem == Memory(generation, producer, consumer, drops, underruns, stamps[..], audio[..])
      ensures ConsumerRan(old(m), m)
    {
      assert ConsumerChain(m, m, [m]);
    }

    method OtherConsumerTurns()
      requires Valid()
      modifies `consumer, `drops, `underruns, `m
      ensures Valid() && SameProduction(old(m), m)
    {
      hide Reachable, Sized;
      ghost var before := m;
      ConsumerInterference();
      ghost var chain: seq<State> :| ConsumerChain(before, m, chain);
      ConsumerRanFrame(before, m, chain);
      ReachableInv(m);
      InvSized(m);
    }

    ghost method AdvanceProducer(frame: Frame)
      requires Reachable(m) && |frame| == m.geo.frameBytes
      modifies `m
      ensures Sized(old(m)) && Sized(m) && Reachable(m) && m == ProducerStep(old(m), frame) && m.geo == old(m.geo)
      ensures old(m.frames) <= m.frames
    {
      hide Reachable;
      ReachableInv(m);
      InvSized(m);
      assert ProducerMoves(m, ProducerStep(m, frame));
      ProducerMoveFrame(m, ProducerStep(m, frame));
      m := ProducerStep(m, frame);
    }

    /** `BeginSlotWrite` for the next sequence. */
    method BeginSlotWrite(sequence: u64, frame: Frame) returns (status: SyncStatus)
      requires Valid() && m.ppc.PIdle? && sequence == |m.frames| && |frame| == geo.frameBytes
      modifies this, stamps
      ensures Valid()
      ensures !CanEncode(sequence) ==> status == SyncSequenceOverflow && m == old(m)
      ensures CanEncode(sequence) ==> status.SyncOk? && m.ppc == PCopy(0) && m.frames == old(m.frames) + [frame]
    {
      hide Reachable, Inv;
      if !CanEncode(sequence) { return SyncSequenceOverflow; }
      OtherConsumerTurns();
      stamps[SlotIndexForSequence(sequence)] := WritingStamp(sequence);
      AdvanceProducer(frame);
      status := SyncOk;
    }

    /** The payload of the frame in progress, a byte at a time. */
    method WriteSlotBytes(sequence: u64, frame: Frame)
      requires Valid() && m.ppc == PCopy(0) && |m.frames| == sequence + 1 && m.frames[sequence] == frame
      modifies this, audio
      ensures Valid() && m.ppc == PCopy(geo.frameBytes) && m.frames == old(m.frames)
    {
      hide Reachable, Inv;
      var slot := SlotIndexForSequence(sequence);
      OffsetOrder(slot, geo.capacity, geo.frameBytes);
      OffsetIsProduct(slot, geo.frameBytes);
      var i := 0;
      while i < geo.frameBytes
        invariant 0 <= i <= geo.frameBytes && Valid() && m.ppc == PCopy(i) && m.frames == old(m.frames)
      {
        OtherConsumerTurns();
        audio[slot * geo.frameBytes + i] := frame[i];
        AdvanceProducer(frame);
        i := i + 1;
      }
    }

    /** `CommitSlotWrite`: the slot must still carry the writing stamp. */
    method CommitSlotWrite(sequence: u64) returns (status: SyncStatus)
      requires Valid() && m.ppc == PCopy(geo.frameBytes) && |m.frames| == sequence + 1 && CanEncode(sequence)
      modifies this, stamps
      ensures Valid() && m.frames == old(m.frames)
      ensures m.ppc == (if status.SyncOk? then PPublishGeneration else PStuck)
    {
      hide Reachable, Inv;
      var slot := SlotIndexForSequence(sequence);
      var filler := seq(geo.frameBytes, i => 0);
      OtherConsumerTurns();
      var observed := stamps[slot];
      AdvanceProducer(filler);
      if observed != WritingStamp(sequence) { return SlotStateMismatch; }
      OtherConsumerTurns();
      stamps[slot] := StableStamp(sequence);
      AdvanceProducer(filler);
      status := SyncOk;
    }

    /**
     `PublishProducerSequence` on any arguments. Where the protocol calls for the publication it is the machine's;
     otherwise it answers by the cursors, and a store it lets through is the only thing that changes.
     */
    method PublishProducerSequence(expectedGeneration: u64, next: u64) returns (status: SyncStatus)
      requires Valid()
      modifies this
      ensures expectedGeneration == 0 ==> Valid() && status == InvalidGeneration && m == old(m)
      ensures expectedGeneration != 0 && next > MAX_FRAME_SEQUENCE + 1 ==>
                Valid() && status == SyncSequenceOverflow && m == old(m)
      ensures expectedGeneration != 0 && next <= MAX_FRAME_SEQUENCE + 1 && expectedGeneration != geo.generation ==>
                Valid() && status == SessionMismatch && SameProduction(old(m), m)
      ensures expectedGeneration == geo.generation && next <= MAX_FRAME_SEQUENCE + 1 ==>
                if ProducerMayPublish(old(m), next) then
                  Valid() && ProducerPublished(old(m), m, status) && (status.SyncOk? ==> producer == next)
                else
                  && ProducerStrayed(old(m), m, next, status)
                  && ValidButFor(if status.SyncOk? then next else m.mem.producer, m.mem.consumer)
    {
      hide Reachable, Inv, Sized, SameProduction, ProducerMayPublish, ProducerPublished, ProducerStrayed;
      if expectedGeneration == 0 { return InvalidGeneration; }
      if next > MAX_FRAME_SEQUENCE + 1 { return SyncSequenceOverflow; }
      if expectedGeneration != geo.generation {
        // the load below sees the session's own generation, so the comparison with a foreign one fails
        OtherConsumerTurns();
        SessionGeneration();
        assert generation != expectedGeneration;
        return SessionMismatch;
      }
      status := PublishCount(expectedGeneration, next, ProducerMayPublish(m, next));
    }

    /** The accesses of a publication with the session's own generation. */
    method PublishCount(expectedGeneration: u64, next: u64, ghost step: bool) returns (status: SyncStatus)
      requires Valid() && expectedGeneration == geo.generation && step == ProducerMayPublish(m, next)
      modifies this
      ensures step ==> Valid() && ProducerPublished(old(m), m, status) && (status.SyncOk? ==> producer == next)
      ensures !step ==>
                && ProducerStrayed(old(m), m, next, status)
                && ValidButFor(if status.SyncOk? then next else m.mem.producer, m.mem.consumer)
    {
      hide Reachable, Inv;
      ghost var filler := seq(geo.frameBytes, i => 0);
      OtherConsumerTurns();
      var currentGeneration := generation;
      SessionGeneration();
      if step { AdvanceProducer(filler); }
      if currentGeneration != expectedGeneration { return SessionMismatch; }
      OtherConsumerTurns();
      var current := producer;
      if step { AdvanceProducer(filler); }
      OtherConsumerTurns();
      CursorsOrdered();
      var consumed := consumer;
      if step { AdvanceProducer(filler); }
      if next < current { return ProducerRegression; }
      if next < consumed { return ConsumerAhead; }
      OtherConsumerTurns();
      producer := next;
      if step { AdvanceProducer(filler); }
      status := SyncOk;
    }

    lemma {:induction false} CursorsOrdered()
      requires Valid()
      ensures consumer <= producer
    {
      ReachableInv(m);
      hide Reachable;
    }

    /** The whole producer protocol for one frame: it fails only when the sequence space is exhausted. */
    method ProduceFrame(frame: Frame) returns (published: bool)
      requires Valid() && m.ppc.PIdle? && |frame| == geo.frameBytes
      modifies this, stamps, audio
      ensures Valid() && m.ppc.PIdle?
      ensures published <==> CanEncode(|old(m.frames)|)
      ensures m.frames == if published then old(m.frames) + [frame] else old(m.frames)
      ensures producer == |m.frames|
    {
      hide Reachable, Sized, Inv;
      ProducerFacts(m);
      var sequence := producer;
      var status := BeginSlotWrite(sequence, frame);
      if status.SyncSequenceOverflow? { return false; }
      WriteSlotBytes(sequence, frame);
      status := CommitSlotWrite(sequence);
      ProducerFacts(m);
      status := PublishProducerSequence(geo.generation, sequence + 1);
      ProducerFacts(m);
      published := true;
    }
  }

  /** A conforming producer is never turned away by its own helpers. */
  lemma {:induction false} ProducerFacts(s: State)
    requires Reachable(s)
    ensures !s.ppc.PStuck? && (s.ppc.PIdle? ==> s.mem.producer == |s.frames|)
  {
    hide Reachable, SlotsOk, CallsOk, PcOk, UnstableOvertaken;
    ReachableInv(s);
  }

  lemma {:induction false} PrecheckPassed(h: Header, expectedGeneration: u64, regionBytes: u64, outputBytes: nat)
    requires Precheck(h, expectedGeneration, regionBytes, outputBytes).None?
    ensures ValidHeader(h) && h.generation == expectedGeneration && outputBytes == GeometryOf(h).frameBytes
  {
    hide HeaderStatus;
    LayoutExact(h);
  }

  lemma {:induction false} PlanOfValid(h: Header, c: Cursors)
    requires ValidHeader(h)
    ensures h.capacityFrames != 0 && PlanWindow(h, c) == PlanCursors(h.generation, h.capacityFrames, c)
  {
    hide PlanCursors;
  }

  lemma {:induction false} SizedIgnoresCounters(s: State, t: State)
    requires Sized(s) && t.geo == s.geo && t.ppc == s.ppc && t.frames == s.frames && t.newest == s.newest
    requires t.mem.stamps == s.mem.stamps && t.mem.audio == s.mem.audio
    ensures Sized(t)
  {
  }

  /** The call in progress in s has returned by t, with this status, result structure and output. */
  ghost predicate Returned(s: State, t: State, status: ConsumeStatus, r: ConsumeResult, output: Frame) {
    && t.cpc == CIdle && |t.calls| == |s.calls| + 1 && s.calls <= t.calls
    && var c := t.calls[|s.calls|];
    && status == c.status && r == ConsumeResult(c.sequence, c.dropped, c.slot, c.silence)
    && c.startProducer == s.entryProducer && c.startConsumer == s.entryConsumer
    && (status.Ok? || status.Underrun? || status.SlotUnstable? ==> output == c.output)
  }

  /** The call in progress in s has returned these values by t. */
  ghost predicate CallEnds(
    s: State, t: State, status: ConsumeStatus, sequence: u64, dropped: u64, slot: u32, silence: bool, output: Frame)
  {
    && t.cpc == CIdle && |t.calls| == |s.calls| + 1 && s.calls <= t.calls
    && var c := t.calls[|s.calls|];
    && c.status == status && c.sequence == sequence && c.dropped == dropped && c.slot == slot && c.silence == silence
    && c.output == output
    && c.startProducer == s.entryProducer && c.startConsumer == s.entryConsumer
  }
}
