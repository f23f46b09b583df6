/** The joint invariant of cursors, stamps, payload and both program counters, and its preservation. */
module RingSafety {
  import opened Words
  import opened Protocol
  import opened RingMachine

  // ----- counting over call histories -----

  function Oks(calls: seq<Call>): nat {
    if calls == [] then 0 else Oks(calls[..|calls| - 1]) + (if calls[|calls| - 1].status.Ok? then 1 else 0)
  }

  function Drops(calls: seq<Call>): nat {
    if calls == [] then 0 else Drops(calls[..|calls| - 1]) + calls[|calls| - 1].dropped
  }

  function Underruns(calls: seq<Call>): nat {
    if calls == [] then 0 else Underruns(calls[..|calls| - 1]) + (if calls[|calls| - 1].status.Underrun? then 1 else 0)
  }

  lemma {:induction false} CountsAppend(calls: seq<Call>, c: Call)
    ensures Oks(calls + [c]) == Oks(calls) + (if c.status.Ok? then 1 else 0)
    ensures Drops(calls + [c]) == Drops(calls) + c.dropped
    ensures Underruns(calls + [c]) == Underruns(calls) + (if c.status.Underrun? then 1 else 0)
  {
    assert (calls + [c])[..|calls|] == calls;
  }

  /** The consumer position a history of calls leaves behind. */
  function Position(calls: seq<Call>): nat { Oks(calls) + Drops(calls) }

  // ----- slots -----

  function SlotBytes(g: Geometry, audio: seq<byte>, slot: nat): (r: Frame)
    requires slot < g.capacity && |audio| == Offset(g.capacity, g.frameBytes)
    ensures |r| == g.frameBytes
  {
    OffsetOrder(slot, g.capacity, g.frameBytes);
    audio[Offset(slot, g.frameBytes)..Offset(slot, g.frameBytes) + g.frameBytes]
  }

  /** Writing byte i of one slot changes that byte and no other slot. */
  lemma {:induction false} SlotByteUpdate(g: Geometry, audio: seq<byte>, slot: nat, i: nat, b: byte, other: nat)
    requires slot < g.capacity && other < g.capacity && i < g.frameBytes
    requires |audio| == Offset(g.capacity, g.frameBytes)
    ensures 0 <= Offset(slot, g.frameBytes) + i < |audio|
    ensures var audio' := audio[Offset(slot, g.frameBytes) + i := b];
            SlotBytes(g, audio', other) == if slot == other then SlotBytes(g, audio, other)[i := b]
              else SlotBytes(g, audio, other)
  {
    OffsetOrder(slot, g.capacity, g.frameBytes);
    OffsetOrder(other, g.capacity, g.frameBytes);
    if slot < other { OffsetOrder(slot, other, g.frameBytes); }
    if other < slot { OffsetOrder(other, slot, g.frameBytes); }
  }

  lemma {:induction false} SlotByteAt(g: Geometry, audio: seq<byte>, slot: nat, i: nat)
    requires slot < g.capacity && |audio| == Offset(g.capacity, g.frameBytes) && i < g.frameBytes
    ensures 0 <= Offset(slot, g.frameBytes) + i < |audio|
    ensures audio[Offset(slot, g.frameBytes) + i] == SlotBytes(g, audio, slot)[i]
  {
    OffsetOrder(slot, g.capacity, g.frameBytes);
  }

  /** Frame n is between its BeginSlotWrite and its CommitSlotWrite. */
  predicate Writing(ppc: ProducerPc, begun: nat, n: int) {
    n == begun - 1 && (ppc.PCopy? || ppc.PCommitStore?)
  }

  /** Stamps and payload as the producer's history determines them. */
  ghost predicate SlotsOk(
    g: Geometry, stamps: seq<u64>, audio: seq<byte>, ppc: ProducerPc, frames: seq<Frame>, newest: seq<int>)
    requires ValidGeometry(g) && |stamps| == |newest| == g.capacity && |audio| == Offset(g.capacity, g.frameBytes)
    requires forall n :: 0 <= n < |frames| ==> |frames[n]| == g.frameBytes
  {
    && |frames| <= MAX_FRAME_SEQUENCE + 1
    && (forall k :: 0 <= k < |newest| ==>
          if newest[k] == -1 then stamps[k] == 0
          else
            && 0 <= newest[k] < |frames| && SlotOf(g, newest[k]) == k
            && stamps[k] ==
               (if Writing(ppc, |frames|, newest[k]) then WritingStamp(newest[k]) else StableStamp(newest[k])))
    && (forall k :: 0 <= k < |newest| && newest[k] != -1 && !Writing(ppc, |frames|, newest[k]) ==>
          SlotBytes(g, audio, k) == frames[newest[k]])
    && Latest(g, frames, newest)
    && (ppc.PCopy? ==>
          && 0 < |frames| && ppc.written <= g.frameBytes && newest[SlotOf(g, |frames| - 1)] == |frames| - 1
          && SlotBytes(g, audio, SlotOf(g, |frames| - 1))[..ppc.written] == frames[|frames| - 1][..ppc.written])
    && (ppc.PCommitStore? ==>
          && 0 < |frames| && newest[SlotOf(g, |frames| - 1)] == |frames| - 1
          && SlotBytes(g, audio, SlotOf(g, |frames| - 1)) == frames[|frames| - 1])
  }

  /** No slot's latest occupant is older than any frame begun for that slot. */
  ghost predicate Latest(g: Geometry, frames: seq<Frame>, newest: seq<int>)
    requires 0 < g.capacity && |newest| == g.capacity
  {
    forall n :: 0 <= n < |frames| ==> newest[SlotOf(g, n)] >= n
  }

  /** Frames published so far: all begun ones except the one still in progress. */
  function Published(ppc: ProducerPc, begun: nat): int { if ppc.PIdle? then begun else begun - 1 }

  // ----- finished calls -----

  /** What one finished call guarantees, given the position the calls before it left. */
  ghost predicate CallOk(g: Geometry, frames: seq<Frame>, c: Call, base: nat)
    requires 0 < g.capacity
  {
    && (c.status.Ok? || c.status.Underrun? || c.status.SlotUnstable?)
    && c.startConsumer == base
    && c.startProducer <= c.snapProducer <= c.endBegun <= |frames|
    && c.startConsumer <= c.snapProducer
    && c.dropped == Max(c.snapProducer - base - g.capacity, 0)
    && c.sequence == base + c.dropped
    && c.slot == SlotOf(g, c.sequence)
    && (c.status.Underrun? <==> c.snapProducer == base)
    && (c.status.Ok? ==> !c.silence && c.sequence < |frames| && c.output == frames[c.sequence])
    && (!c.status.Ok? ==> c.silence && c.output == Zeros(g.frameBytes))
    && (c.status.SlotUnstable? ==> c.endBegun > c.sequence + g.capacity)
  }

  ghost predicate CallsOk(g: Geometry, frames: seq<Frame>, calls: seq<Call>)
    requires 0 < g.capacity
  {
    && (forall i :: 0 <= i < |calls| ==> CallOk(g, frames, calls[i], Position(calls[..i])))
    && (forall i, j :: 0 <= i < j < |calls| && calls[i].status.SlotUnstable? && calls[j].status.Ok? ==>
          calls[i].sequence != calls[j].sequence)
  }

  /** A frame once found unstable has been overtaken in its slot for good. */
  ghost predicate UnstableOvertaken(g: Geometry, newest: seq<int>, calls: seq<Call>)
    requires 0 < g.capacity && |newest| == g.capacity
  {
    forall i :: 0 <= i < |calls| && calls[i].status.SlotUnstable? ==>
             newest[SlotOf(g, calls[i].sequence)] > calls[i].sequence
  }

  // ----- the call in progress -----

  /** A planned window, seen from the position at which the call started. */
  ghost predicate WindowOk(g: Geometry, w: Window, base: nat, entryProducer: u64, producer: u64)
    requires 0 < g.capacity
  {
    var p := w.normalized + w.buffered;
    && entryProducer <= p <= producer && base <= p
    && w.dropped == Max(p - base - g.capacity, 0)
    && w.normalized == base + w.dropped
    && w.buffered == Min(p - base, g.capacity)
    && w.consumerSlot == SlotOf(g, w.normalized)
  }

  /** The bytes copied so far are those of the wanted frame unless its slot has been overtaken. */
  ghost predicate CopyOk(g: Geometry, frames: seq<Frame>, newest: seq<int>, w: Window, out: Frame)
    requires 0 < g.capacity && |newest| == g.capacity
  {
    && 0 <= w.normalized < |frames| && newest[SlotOf(g, w.normalized)] >= w.normalized
    && |out| <= g.frameBytes && |frames[w.normalized]| == g.frameBytes
    && (newest[SlotOf(g, w.normalized)] == w.normalized ==> out == frames[w.normalized][..|out|])
  }

  ghost predicate Delivered(frames: seq<Frame>, calls: seq<Call>, w: Window, out: Frame) {
    && w.normalized < |frames| && out == frames[w.normalized]
    && (forall i :: 0 <= i < |calls| && calls[i].status.SlotUnstable? ==> calls[i].sequence != w.normalized)
  }

  /** The shared consumer position and drop counter, relative to the finished calls. */
  ghost predicate PcOk(
    g: Geometry, frames: seq<Frame>, newest: seq<int>, producer: u64, mem: Memory, cpc: ConsumerPc, calls: seq<Call>,
    entryProducer: u64, entryConsumer: u64)
    requires ValidGeometry(g) && |newest| == g.capacity
  {
    var base := Position(calls);
    && (!cpc.CIdle? ==> entryConsumer == base && entryProducer <= producer)
    && match cpc
       case CIdle | CSnapGeneration(_) => mem.consumer == base && mem.drops == Drops(calls)
       case CSnapProducer(_, seen) => seen == g.generation && mem.consumer == base && mem.drops == Drops(calls)
       case CSnapConsumer(_, seen, p) =>
         && seen == g.generation && entryProducer <= p <= producer && base <= p && mem.consumer == base
         && mem.drops == Drops(calls)
       case CSnapDrops(_, seen, p, c) =>
         && seen == g.generation && entryProducer <= p <= producer && base <= p && c == mem.consumer == base
         && mem.drops == Drops(calls)
       case CSnapUnderruns(_, seen, p, c, _) =>
         && seen == g.generation && entryProducer <= p <= producer && base <= p && c == mem.consumer == base
         && mem.drops == Drops(calls)
       case CSnapRecheck(_, snap) =>
         && snap.generation == g.generation && entryProducer <= snap.producer <= producer
         && snap.consumer == mem.consumer == base <= snap.producer && mem.drops == Drops(calls)
       case CSkipGeneration(w) =>
         && WindowOk(g, w, base, entryProducer, producer) && mem.consumer == base && mem.drops == Drops(calls)
         && 0 < w.dropped
       case CSkipCurrent(w) =>
         && WindowOk(g, w, base, entryProducer, producer) && mem.consumer == base && mem.drops == Drops(calls)
         && 0 < w.dropped
       case CSkipProducer(w, current) =>
         && WindowOk(g, w, base, entryProducer, producer) && current == mem.consumer == base
         && mem.drops == Drops(calls) && 0 < w.dropped
       case CSkipStore(w) =>
         && WindowOk(g, w, base, entryProducer, producer) && mem.consumer == base && mem.drops == Drops(calls)
         && 0 < w.dropped
       case CRecordDrops(w) =>
         && WindowOk(g, w, base, entryProducer, producer) && mem.consumer == w.normalized && mem.drops == Drops(calls)
         && 0 < w.dropped
       case CRecordUnderrun(w) => Accounted(g, w, mem, calls, entryProducer, producer) && w.buffered == 0
       case CStampBefore(w) => Accounted(g, w, mem, calls, entryProducer, producer) && 0 < w.buffered
       case CCopy(w, out) =>
         Accounted(g, w, mem, calls, entryProducer, producer) && 0 < w.buffered && CopyOk(g, frames, newest, w, out)
       case CDoneGeneration(w, out) =>
         Accounted(g, w, mem, calls, entryProducer, producer) && 0 < w.buffered && Delivered(frames, calls, w, out)
       case CDoneCurrent(w, out) =>
         Accounted(g, w, mem, calls, entryProducer, producer) && 0 < w.buffered && Delivered(frames, calls, w, out)
       case CDoneProducer(w, out, current) =>
         && Accounted(g, w, mem, calls, entryProducer, producer) && 0 < w.buffered && Delivered(frames, calls, w, out)
         && current == mem.consumer
       case CDoneStore(w, out) =>
         Accounted(g, w, mem, calls, entryProducer, producer) && 0 < w.buffered && Delivered(frames, calls, w, out)
  }

  /** The overrun of this call, if any, is published and counted. */
  ghost predicate Accounted(g: Geometry, w: Window, mem: Memory, calls: seq<Call>, entryProducer: u64, producer: u64)
    requires 0 < g.capacity
  {
    && WindowOk(g, w, Position(calls), entryProducer, producer)
    && mem.consumer == w.normalized && mem.drops == Drops(calls) + w.dropped
  }

  // ----- the invariant -----

  ghost predicate ProducerOk(s: State) {
    && !s.ppc.PStuck?
    && s.mem.producer == Published(s.ppc, |s.frames|)
    && (s.ppc.PPublishConsumer? ==> s.ppc.current == s.mem.producer)
  }

  ghost predicate Inv(s: State) {
    && Sized(s) && s.mem.generation == s.geo.generation
    && ProducerOk(s)
    && SlotsOk(s.geo, s.mem.stamps, s.mem.audio, s.ppc, s.frames, s.newest)
    && s.mem.consumer <= s.mem.producer
    && s.mem.underruns == Underruns(s.calls) % TWO_64
    && CallsOk(s.geo, s.frames, s.calls)
    && UnstableOvertaken(s.geo, s.newest, s.calls)
    && PcOk(s.geo, s.frames, s.newest, s.mem.producer, s.mem, s.cpc, s.calls, s.entryProducer, s.entryConsumer)
  }

  lemma {:induction false} InitEstablishesInv(s: State)
    requires Init(s)
    ensures Inv(s)
  {
    assert s.calls[..0] == [];
  }

  // ----- producer steps -----

  lemma {:induction false} ProducerBeginKeepsSlots(s: State, frame: Frame)
    requires Inv(s) && |frame| == s.geo.frameBytes && s.ppc.PIdle?
    ensures var t := ProducerStep(s, frame);
            SlotsOk(t.geo, t.mem.stamps, t.mem.audio, t.ppc, t.frames, t.newest) && ProducerOk(t)
  {
    hide CallsOk, UnstableOvertaken, PcOk, Underruns, Offset, SlotBytes, SlotOf;
    var t := ProducerStep(s, frame);
    var n := |s.frames|;
    if CanEncode(n) {
      assert |t.frames| == n + 1 && t.frames[n] == frame;
      BeginKeepsLatest(s.geo, s.frames, s.newest, frame);
      forall k | 0 <= k < |t.newest| && t.newest[k] != -1 && !Writing(t.ppc, |t.frames|, t.newest[k])
        ensures SlotBytes(t.geo, t.mem.audio, k) == t.frames[t.newest[k]]
      {
        assert t.newest[k] == s.newest[k];
      }
      assert SlotBytes(t.geo, t.mem.audio, SlotOf(t.geo, n))[..0] == t.frames[n][..0];
    }
  }

  lemma {:induction false} BeginKeepsLatest(g: Geometry, frames: seq<Frame>, newest: seq<int>, frame: Frame)
    requires 0 < g.capacity && |newest| == g.capacity && Latest(g, frames, newest)
    requires forall k :: 0 <= k < |newest| ==> newest[k] < |frames|
    ensures Latest(g, frames + [frame], newest[SlotOf(g, |frames|) := |frames|])
  {
    hide SlotOf;
  }

  lemma {:induction false} ProducerStepKeepsSlots(s: State, frame: Frame)
    requires Inv(s) && |frame| == s.geo.frameBytes
    ensures var t := ProducerStep(s, frame);
            SlotsOk(t.geo, t.mem.stamps, t.mem.audio, t.ppc, t.frames, t.newest) && ProducerOk(t)
  {
    hide CallsOk, UnstableOvertaken, PcOk, Underruns, Offset, SlotBytes;
    if s.ppc.PIdle? {
      ProducerBeginKeepsSlots(s, frame);
    } else if s.ppc.PCopy? {
      ProducerCopyKeepsSlots(s, frame);
    }
  }

  lemma {:induction false} ProducerCopyKeepsSlots(s: State, frame: Frame)
    requires Inv(s) && |frame| == s.geo.frameBytes && s.ppc.PCopy?
    ensures var t := ProducerStep(s, frame);
            SlotsOk(t.geo, t.mem.stamps, t.mem.audio, t.ppc, t.frames, t.newest) && ProducerOk(t)
  {
    hide CallsOk, UnstableOvertaken, PcOk, Underruns, Offset;
    var t := ProducerStep(s, frame);
    var g, n, i := s.geo, |s.frames|, s.ppc.written;
    var slot := SlotOf(g, n - 1);
    assert s.mem.stamps[slot] == WritingStamp(n - 1);
    if i < g.frameBytes {
      forall k | 0 <= k < |s.newest|
        ensures k != slot ==> SlotBytes(g, t.mem.audio, k) == SlotBytes(g, s.mem.audio, k)
        ensures k == slot ==> SlotBytes(g, t.mem.audio, k) == SlotBytes(g, s.mem.audio, k)[i := s.frames[n - 1][i]]
      {
        SlotByteUpdate(g, s.mem.audio, slot, i, s.frames[n - 1][i], k);
      }
      assert SlotBytes(g, t.mem.audio, slot)[..i + 1] == SlotBytes(g, s.mem.audio, slot)[..i] + [s.frames[n - 1][i]];
      assert s.frames[n - 1][..i + 1] == s.frames[n - 1][..i] + [s.frames[n - 1][i]];
    } else {
      assert s.frames[n - 1][..i] == s.frames[n - 1];
    }
  }

  /** Histories only grow: later frames and later slot occupants invalidate nothing the consumer relies on. */
  lemma {:induction false} ConsumerFactsStable(
    g: Geometry, frames: seq<Frame>, newest: seq<int>, producer: u64, frames': seq<Frame>, newest': seq<int>,
      producer': u64,
    mem: Memory, cpc: ConsumerPc, calls: seq<Call>, entryProducer: u64, entryConsumer: u64)
    requires ValidGeometry(g) && |newest| == |newest'| == g.capacity
    requires frames <= frames' && producer <= producer' && (forall k :: 0 <= k < |newest| ==> newest[k] <= newest'[k])
    requires CallsOk(g, frames, calls) && UnstableOvertaken(g, newest, calls)
    requires PcOk(g, frames, newest, producer, mem, cpc, calls, entryProducer, entryConsumer)
    ensures CallsOk(g, frames', calls) && UnstableOvertaken(g, newest', calls)
    ensures PcOk(g, frames', newest', producer', mem, cpc, calls, entryProducer, entryConsumer)
  {
    forall i | 0 <= i < |calls| ensures CallOk(g, frames', calls[i], Position(calls[..i])) {
      assert CallOk(g, frames, calls[i], Position(calls[..i]));
    }
  }

  lemma {:induction false} PcIgnoresProducerFields(
    g: Geometry, frames: seq<Frame>, newest: seq<int>, producer: u64, mem: Memory, mem': Memory, cpc: ConsumerPc,
      calls: seq<Call>,
    entryProducer: u64, entryConsumer: u64)
    requires ValidGeometry(g) && |newest| == g.capacity
    requires mem.consumer == mem'.consumer && mem.drops == mem'.drops
    requires PcOk(g, frames, newest, producer, mem, cpc, calls, entryProducer, entryConsumer)
    ensures PcOk(g, frames, newest, producer, mem', cpc, calls, entryProducer, entryConsumer)
  {
  }

  lemma {:induction false} OccupantsGrow(s: State, frame: Frame)
    requires Inv(s) && |frame| == s.geo.frameBytes
    ensures forall k :: 0 <= k < |s.newest| ==> s.newest[k] <= ProducerStep(s, frame).newest[k]
  {
    hide CallsOk, UnstableOvertaken, PcOk;
  }

  lemma {:induction false} ProducerStepKeepsInv(s: State, frame: Frame)
    requires Inv(s) && |frame| == s.geo.frameBytes
    ensures Inv(ProducerStep(s, frame))
  {
    hide SlotsOk, CallsOk, CallOk, UnstableOvertaken, PcOk, Drops, Oks, Underruns, SlotOf;
    var t := ProducerStep(s, frame);
    ProducerStepKeepsSlots(s, frame);
    assert s.frames <= t.frames;
    OccupantsGrow(s, frame);
    ConsumerFactsStable(s.geo, s.frames, s.newest, s.mem.producer, t.frames, t.newest, t.mem.producer,
                        s.mem, s.cpc, s.calls, s.entryProducer, s.entryConsumer);
    PcIgnoresProducerFields(s.geo, t.frames, t.newest, t.mem.producer, s.mem, t.mem, s.cpc, s.calls, s.entryProducer,
      s.entryConsumer);
  }

  // ----- consumer steps -----

  /** Appending a call that meets its contract keeps the history well-formed. */
  lemma {:induction false} CallsExtend(g: Geometry, frames: seq<Frame>, calls: seq<Call>, c: Call)
    requires 0 < g.capacity && CallsOk(g, frames, calls) && CallOk(g, frames, c, Position(calls))
    requires c.status.Ok? ==> forall i :: 0 <= i < |calls| && calls[i].status.SlotUnstable? ==>
               calls[i].sequence != c.sequence
    ensures CallsOk(g, frames, calls + [c])
    ensures Position(calls + [c]) == Position(calls) + c.dropped + (if c.status.Ok? then 1 else 0)
    ensures Drops(calls + [c]) == Drops(calls) + c.dropped
    ensures Underruns(calls + [c]) == Underruns(calls) + (if c.status.Underrun? then 1 else 0)
  {
    CountsAppend(calls, c);
    var all := calls + [c];
    forall i | 0 <= i < |all| ensures CallOk(g, frames, all[i], Position(all[..i])) {
      if i < |calls| {
        assert all[..i] == calls[..i];
        assert CallOk(g, frames, calls[i], Position(calls[..i]));
      } else {
        assert all[..i] == calls;
      }
    }
  }

  /** A snapshot of the consumer's own cursors always plans, and plans the window described above. */
  lemma {:induction false} SnapshotPlans(s: State, snap: Cursors)
    requires Inv(s) && s.cpc.CSnapRecheck? && s.cpc.snap == snap
    ensures PlanCursors(s.geo.generation, s.geo.capacity, snap).Success?
    ensures WindowOk(s.geo, PlanCursors(s.geo.generation, s.geo.capacity, snap).value, Position(s.calls),
            s.entryProducer, s.mem.producer)
    ensures PlanCursors(s.geo.generation, s.geo.capacity, snap).value.normalized <= snap.producer <=
            MAX_FRAME_SEQUENCE + 1
    ensures PlanCursors(s.geo.generation, s.geo.capacity, snap).value.buffered == 0 ==>
              PlanCursors(s.geo.generation, s.geo.capacity, snap).value.dropped == 0
  {
  }

  lemma {:induction false} AfterDropsKeepsInv(s: State, w: Window)
    requires Sized(s) && s.mem.generation == s.geo.generation && ProducerOk(s)
    requires SlotsOk(s.geo, s.mem.stamps, s.mem.audio, s.ppc, s.frames, s.newest)
    requires s.mem.consumer <= s.mem.producer && s.mem.underruns == Underruns(s.calls) % TWO_64
    requires CallsOk(s.geo, s.frames, s.calls) && UnstableOvertaken(s.geo, s.newest, s.calls)
    requires Accounted(s.geo, w, s.mem, s.calls, s.entryProducer, s.mem.producer)
    requires s.entryConsumer == Position(s.calls) && s.entryProducer <= s.mem.producer
    ensures Inv(AfterDrops(s, w))
  {
    hide SlotsOk, Latest, CallsOk, CallOk, UnstableOvertaken, Drops, Oks, Underruns, SlotOf;
  }

  lemma {:induction false} SnapshotStepKeepsInv(s: State)
    requires Inv(s)
    requires || s.cpc.CIdle? || s.cpc.CSnapGeneration? || s.cpc.CSnapProducer? || s.cpc.CSnapConsumer?
             || s.cpc.CSnapDrops? || s.cpc.CSnapUnderruns? || s.cpc.CSnapRecheck?
    ensures Inv(ConsumerStep(s))
  {
    hide SlotsOk, Latest, CallsOk, CallOk, UnstableOvertaken, Drops, Oks, Underruns, SlotOf;
    if s.cpc.CSnapRecheck? {
      var snap := s.cpc.snap;
      SnapshotPlans(s, snap);
      var w := PlanCursors(s.geo.generation, s.geo.capacity, snap).value;
      if w.dropped == 0 { AfterDropsKeepsInv(s, w); }
    }
  }

  lemma {:induction false} SkipStepKeepsInv(s: State)
    requires Inv(s)
    requires s.cpc.CSkipGeneration? || s.cpc.CSkipCurrent? || s.cpc.CSkipProducer? || s.cpc.CSkipStore? ||
             s.cpc.CRecordDrops?
    ensures Inv(ConsumerStep(s))
  {
    hide SlotsOk, Latest, CallsOk, CallOk, UnstableOvertaken, Drops, Oks, Underruns, SlotOf;
    if s.cpc.CRecordDrops? {
      var w := s.cpc.w;
      AfterDropsKeepsInv(s.(mem := s.mem.(drops := Wrap64(s.mem.drops + w.dropped))), w);
    }
  }

  lemma {:induction false} UnderrunStepKeepsInv(s: State)
    requires Inv(s) && s.cpc.CRecordUnderrun?
    ensures Inv(ConsumerStep(s))
  {
    hide SlotsOk, Latest, CallsOk, UnstableOvertaken, Drops, Oks, Underruns, SlotOf;
    var t := ConsumerStep(s);
    var c := t.calls[|s.calls|];
    CallsExtend(s.geo, s.frames, s.calls, c);
    SettledCallKeepsOvertaken(s.geo, s.newest, s.calls, c);
    assert t.calls == s.calls + [c];
  }

  /** A stamp other than the expected one means the slot has been taken for a frame at least a lap later. */
  lemma {:induction false} OtherStampMeansOvertaken(s: State, n: nat)
    requires Inv(s) && n < s.mem.producer
    ensures n < |s.frames| && StableStamp(n) == 2 * n
    ensures s.newest[SlotOf(s.geo, n)] >= n
    ensures s.mem.stamps[SlotOf(s.geo, n)] == StableStamp(n) <==> s.newest[SlotOf(s.geo, n)] == n
    ensures s.newest[SlotOf(s.geo, n)] == n ==> SlotBytes(s.geo, s.mem.audio, SlotOf(s.geo, n)) == s.frames[n]
    ensures s.newest[SlotOf(s.geo, n)] != n ==> |s.frames| > n + s.geo.capacity
  {
    var k := SlotOf(s.geo, n);
    var m := s.newest[k];
    assert m >= n;
    StampsIdentify(n, m);
    if m != n { SameSlotIsLapApart(n, m, s.geo.capacity); }
  }

  lemma {:induction false} UnstableCallOk(s: State, w: Window)
    requires Inv(s) && (s.cpc == CStampBefore(w) || (s.cpc.CCopy? && s.cpc.w == w))
    requires s.newest[SlotOf(s.geo, w.normalized)] != w.normalized
    ensures CallOk(s.geo, s.frames, Unstable(s, w).calls[|s.calls|], Position(s.calls))
  {
    hide SlotsOk, Latest, CallsOk, UnstableOvertaken, Drops, Oks, Underruns, SlotOf;
    OtherStampMeansOvertaken(s, w.normalized);
  }

  lemma {:induction false} UnstableKeepsInv(s: State, w: Window)
    requires Inv(s) && (s.cpc == CStampBefore(w) || (s.cpc.CCopy? && s.cpc.w == w))
    requires s.newest[SlotOf(s.geo, w.normalized)] != w.normalized
    ensures Inv(Unstable(s, w))
  {
    hide SlotsOk, Latest, CallsOk, CallOk, UnstableOvertaken, Drops, Oks, Underruns, SlotOf;
    UnstableCallOk(s, w);
    OtherStampMeansOvertaken(s, w.normalized);
    var t := Unstable(s, w);
    var c := t.calls[|s.calls|];
    assert t.calls == s.calls + [c];
    CallsExtend(s.geo, s.frames, s.calls, c);
    SettledCallKeepsOvertaken(s.geo, s.newest, s.calls, c);
  }

  /** The frame that still occupies its slot was never reported unstable. */
  lemma {:induction false} StableFrameIsNew(g: Geometry, newest: seq<int>, calls: seq<Call>, n: nat)
    requires 0 < g.capacity && |newest| == g.capacity && UnstableOvertaken(g, newest, calls)
    requires newest[SlotOf(g, n)] == n
    ensures forall i :: 0 <= i < |calls| && calls[i].status.SlotUnstable? ==> calls[i].sequence != n
  {
  }

  /** One more payload byte is copied out of the slot. */
  lemma {:induction false} CopyByteKeepsInv(s: State)
    requires Inv(s) && s.cpc.CCopy? && |s.cpc.out| < s.geo.frameBytes
    ensures Inv(ConsumerStep(s))
  {
    hide SlotsOk, Latest, CallsOk, CallOk, UnstableOvertaken, Drops, Oks, Underruns, SlotOf, SnapshotStep, AccountStep,
      DoneStep;
    var w, out := s.cpc.w, s.cpc.out;
    var n := w.normalized;
    OtherStampMeansOvertaken(s, n);
    SlotByteAt(s.geo, s.mem.audio, SlotOf(s.geo, n), |out|);
    var t := ConsumerStep(s);
    if s.newest[SlotOf(s.geo, n)] == n {
      assert s.frames[n][..|out| + 1] == s.frames[n][..|out|] + [s.frames[n][|out|]];
    }
    assert CopyOk(t.geo, t.frames, t.newest, w, t.cpc.out);
  }

  lemma {:induction false} CopyStepKeepsInv(s: State)
    requires Inv(s) && (s.cpc.CStampBefore? || s.cpc.CCopy?)
    ensures Inv(ConsumerStep(s))
  {
    hide SlotsOk, Latest, CallsOk, CallOk, UnstableOvertaken, Drops, Oks, Underruns, SlotOf, SnapshotStep, AccountStep,
      DoneStep;
    var w := s.cpc.w;
    var n := w.normalized;
    OtherStampMeansOvertaken(s, n);
    if s.cpc.CCopy? && |s.cpc.out| < s.geo.frameBytes {
      CopyByteKeepsInv(s);
    } else if s.mem.stamps[SlotOf(s.geo, n)] != StableStamp(n) {
      UnstableKeepsInv(s, w);
    } else if s.cpc.CCopy? {
      var out := s.cpc.out;
      assert s.frames[n][..|out|] == s.frames[n];
      StableFrameIsNew(s.geo, s.newest, s.calls, n);
      assert Delivered(s.frames, s.calls, w, out);
    }
  }

  lemma {:induction false} DoneStepKeepsInv(s: State)
    requires Inv(s) && (s.cpc.CDoneGeneration? || s.cpc.CDoneCurrent? || s.cpc.CDoneProducer? || s.cpc.CDoneStore?)
    ensures Inv(ConsumerStep(s))
  {
    hide SlotsOk, Latest, CallsOk, UnstableOvertaken, Drops, Oks, Underruns, SlotOf;
    if s.cpc.CDoneStore? { DeliverKeepsInv(s); }
  }

  lemma {:induction false} DeliveredCallOk(s: State)
    requires Inv(s) && s.cpc.CDoneStore?
    ensures var t := ConsumerStep(s);
            && |t.calls| == |s.calls| + 1 && t.calls == s.calls + [t.calls[|s.calls|]]
            && t.calls[|s.calls|].status.Ok? && t.calls[|s.calls|].sequence == s.cpc.w.normalized
            && CallOk(s.geo, s.frames, t.calls[|s.calls|], Position(s.calls))
  {
    hide SlotsOk, Latest, CallsOk, UnstableOvertaken, Drops, Oks, Underruns, SlotOf, SnapshotStep, AccountStep,
      CopyStep;
  }

  lemma {:induction false} DeliverKeepsInv(s: State)
    requires Inv(s) && s.cpc.CDoneStore?
    ensures Inv(ConsumerStep(s))
  {
    hide SlotsOk, Latest, CallsOk, CallOk, UnstableOvertaken, Drops, Oks, Underruns, SlotOf, SnapshotStep, AccountStep,
      CopyStep;
    DeliveredCallOk(s);
    var c := ConsumerStep(s).calls[|s.calls|];
    CallsExtend(s.geo, s.frames, s.calls, c);
    SettledCallKeepsOvertaken(s.geo, s.newest, s.calls, c);
  }

  lemma {:induction false} SettledCallKeepsOvertaken(g: Geometry, newest: seq<int>, calls: seq<Call>, c: Call)
    requires 0 < g.capacity && |newest| == g.capacity && UnstableOvertaken(g, newest, calls)
    requires c.status.SlotUnstable? ==> newest[SlotOf(g, c.sequence)] > c.sequence
    ensures UnstableOvertaken(g, newest, calls + [c])
  {
    hide SlotOf;
  }

  lemma {:induction false} ConsumerStepKeepsInv(s: State)
    requires Inv(s)
    ensures Inv(ConsumerStep(s))
  {
    match s.cpc
    case CIdle | CSnapGeneration(_) | CSnapProducer(_, _) | CSnapConsumer(_, _, _) | CSnapDrops(_, _, _, _)
       | CSnapUnderruns(_, _, _, _, _) | CSnapRecheck(_, _) => SnapshotStepKeepsInv(s);
    case CSkipGeneration(_) | CSkipCurrent(_) | CSkipProducer(_, _) | CSkipStore(_) | CRecordDrops(_) =>
      SkipStepKeepsInv(s);
    case CRecordUnderrun(_) => UnderrunStepKeepsInv(s);
    case CStampBefore(_) | CCopy(_, _) => CopyStepKeepsInv(s);
    case CDoneGeneration(_, _) | CDoneCurrent(_, _) | CDoneProducer(_, _, _) | CDoneStore(_, _) => DoneStepKeepsInv(s);
  }

  lemma {:induction false} NextKeepsInv(s: State, t: State)
    requires Inv(s) && Next(s, t)
    ensures Inv(t)
  {
    if ProducerMoves(s, t) {
      var frame: Frame :| |frame| == s.geo.frameBytes && t == ProducerStep(s, frame);
      ProducerStepKeepsInv(s, frame);
    } else {
      ConsumerStepKeepsInv(s);
    }
  }

  /** The invariant holds in every state of every run. */
  lemma {:induction false} RunKeepsInv(run: seq<State>, i: nat)
    requires Run(run) && i < |run|
    ensures Inv(run[i])
  {
    if i == 0 {
      InitEstablishesInv(run[0]);
    } else {
      RunKeepsInv(run, i - 1);
      NextKeepsInv(run[i - 1], run[i]);
    }
  }
}
