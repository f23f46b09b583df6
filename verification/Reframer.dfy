/**
 `PacketReframer`: a queue of partly consumed segments and a frame count, updated in place. Every method is tied to
 the sample-stream specification of module Reframing.
 */
module Reframer {
  import opened Words
  import opened Wrappers
  import opened Reframing

  datatype PendingSegment = PendingSegment(packet: CapturedPacket, consumedFrames: u32, discontinuityAtStart: bool)

  ghost predicate SegmentOk(f: Format, segment: PendingSegment) {
    && WellFormed(f, segment.packet) && segment.consumedFrames < segment.packet.frames
    && (segment.consumedFrames == 0 ==> segment.discontinuityAtStart == segment.packet.flags.dataDiscontinuity)
  }

  ghost predicate SegmentsOk(f: Format, segments: seq<PendingSegment>) {
    forall i :: 0 <= i < |segments| ==> SegmentOk(f, segments[i])
  }

  /** The samples still to come out of the queue. */
  ghost function Stream(f: Format, segments: seq<PendingSegment>): seq<Sample>
    requires ValidFormat(f) && SegmentsOk(f, segments)
  {
    if |segments| == 0 then []
    else SamplesFrom(f, segments[0].packet, segments[0].consumedFrames) + Stream(f, segments[1..])
  }

  lemma {:induction false} StreamAppend(f: Format, segments: seq<PendingSegment>, last: PendingSegment)
    requires ValidFormat(f) && SegmentsOk(f, segments) && SegmentOk(f, last)
    ensures Stream(f, segments + [last]) == Stream(f, segments) + SamplesFrom(f, last.packet, last.consumedFrames)
  {
    if |segments| == 0 {
      assert Stream(f, [last]) == SamplesFrom(f, last.packet, last.consumedFrames) + Stream(f, [last][1..]);
    } else {
      StreamAppend(f, segments[1..], last);
      assert (segments + [last])[1..] == segments[1..] + [last];
      hide SegmentOk;
    }
  }

  ghost function FlagsOf(s: seq<Sample>): Flags { Flags(AllSilent(s), AnyDiscontinuity(s), AnyTimestampError(s)) }

  function Both(a: Flags, b: Flags): Flags {
    Flags(a.silent && b.silent, a.dataDiscontinuity || b.dataDiscontinuity, a.timestampError || b.timestampError)
  }

  lemma {:induction false} FlagsAppend(a: seq<Sample>, b: seq<Sample>)
    ensures FlagsOf(a + b) == Both(FlagsOf(a), FlagsOf(b))
  {
    forall i | 0 <= i < |a| ensures (a + b)[i] == a[i] { }
    forall i | 0 <= i < |b| ensures (a + b)[|a| + i] == b[i] { }
  }

  /** Samples of one packet share its flags, the discontinuity belonging to sample 0 only. */
  lemma {:induction false} FlagsOfRun(f: Format, p: CapturedPacket, from: nat, take: nat)
    requires ValidFormat(f) && WellFormed(f, p) && 0 < take && from + take <= p.frames
    ensures FlagsOf(SamplesFrom(f, p, from)[..take]) ==
            Flags(p.flags.silent, p.flags.dataDiscontinuity && from == 0, p.flags.timestampError)
  {
    var run := SamplesFrom(f, p, from)[..take];
    forall i | 0 <= i < take ensures run[i] == SampleAt(f, p, from + i) { }
    hide SamplesFrom, ByteLen;
    assert run[0] == SampleAt(f, p, from);
  }

  /** The queue after `take` frames have been taken from its front segment. */
  function AfterTake(segments: seq<PendingSegment>, take: u32): seq<PendingSegment>
    requires |segments| > 0 && segments[0].consumedFrames + take <= segments[0].packet.frames
  {
    if segments[0].consumedFrames + take == segments[0].packet.frames then segments[1..]
    else
      var front := segments[0].(consumedFrames := segments[0].consumedFrames + take, discontinuityAtStart := false);
      [front] + segments[1..]
  }

  lemma {:induction false} TakeFromFront(f: Format, segments: seq<PendingSegment>, take: u32)
    requires ValidFormat(f) && SegmentsOk(f, segments) && |segments| > 0
    requires 0 < take && segments[0].consumedFrames + take <= segments[0].packet.frames
    ensures SegmentsOk(f, AfterTake(segments, take))
    ensures take <= |Stream(f, segments)|
    ensures Stream(f, segments)[..take] == SamplesFrom(f, segments[0].packet, segments[0].consumedFrames)[..take]
    ensures Stream(f, AfterTake(segments, take)) == Stream(f, segments)[take..]
  {
    var p, c := segments[0].packet, segments[0].consumedFrames;
    assert SegmentsOk(f, segments[1..]);
    assert SegmentsOk(f, AfterTake(segments, take));
    SamplesDrop(f, p, c, take);
    hide SamplesFrom, SegmentOk;
    SplitConcat(SamplesFrom(f, p, c), Stream(f, segments[1..]), take);
    if c + take < p.frames {
      assert AfterTake(segments, take)[1..] == segments[1..];
    } else {
      assert [] + Stream(f, segments[1..]) == Stream(f, segments[1..]);
    }
  }

  lemma {:induction false} SplitConcat<X>(a: seq<X>, b: seq<X>, n: nat)
    requires n <= |a|
    ensures (a + b)[..n] == a[..n] && (a + b)[n..] == a[n..] + b
  {
  }

  lemma {:induction false} SamplesDrop(f: Format, p: CapturedPacket, from: nat, take: nat)
    requires ValidFormat(f) && WellFormed(f, p) && from + take <= p.frames
    ensures SamplesFrom(f, p, from)[take..] == SamplesFrom(f, p, from + take)
  {
    hide SampleAt;
  }

  class PacketReframer {
    const format: Format
    var pendingFrames: u64
    var segments: seq<PendingSegment>

    ghost predicate Valid()
      reads this
    {
      ValidFormat(format) && SegmentsOk(format, segments) && pendingFrames == |Stream(format, segments)|
    }

    ghost function Pending(): seq<Sample>
      requires Valid()
      reads this
    {
      Stream(format, segments)
    }

    /** `PacketReframer::new`. A zero sample rate is accepted here and would divide by zero on the first pop. */
    static method New(f: Format) returns (r: Result<PacketReframer, Error>)
      ensures r.Success? <==> f.blockAlign != 0 && f.targetFrames != 0
      ensures r.Failure? ==> r.error == if f.blockAlign == 0 then BlockAlignZero else TargetFrameCountZero
      ensures r.Success? ==>
                fresh(r.value) && r.value.format == f && r.value.segments == [] && r.value.pendingFrames == 0
      ensures r.Success? && 0 < f.sampleRateHz ==> r.value.Valid() && r.value.Pending() == []
    {
      if f.blockAlign == 0 { return Failure(BlockAlignZero); }
      if f.targetFrames == 0 { return Failure(TargetFrameCountZero); }
      var reframer := new PacketReframer(f);
      r := Success(reframer);
    }

    constructor (f: Format)
      ensures format == f && segments == [] && pendingFrames == 0
      ensures ValidFormat(f) ==> Valid() && Pending() == []
    {
      format := f;
      pendingFrames := 0;
      segments := [];
    }

    method Reset()
      requires Valid()
      modifies this
      ensures Valid() && Pending() == []
    {
      pendingFrames := 0;
      segments := [];
    }

    /** Device and performance-counter position of the first frame still in the front segment. */
    method PositionOf(segment: PendingSegment) returns (r: Result<(u64, u64), Error>)
      requires Valid() && |segments| > 0 && segment == segments[0]
      ensures |Pending()| > 0
      ensures r == if Fits(Pending()[0]) then Success((Pending()[0].device, Pending()[0].qpc))
              else Failure(PositionOverflow)
    {
      FirstSample(format, segments);
      var qpcOffset := FramesTo100ns(segment.consumedFrames, format.sampleRateHz);
      if qpcOffset.Failure? { return Failure(PositionOverflow); }
      if segment.packet.devicePosition + segment.consumedFrames > U64_MAX { return Failure(PositionOverflow); }
      if segment.packet.qpcPosition + qpcOffset.value > U64_MAX { return Failure(PositionOverflow); }
      r := Success((segment.packet.devicePosition + segment.consumedFrames,
        segment.packet.qpcPosition + qpcOffset.value));
    }

    /** Takes frames from the front segment and drops it once it is used up. */
    method TakeFront(takeFrames: u32) returns (bytes: seq<byte>, flags: Flags)
      requires ValidFormat(format) && SegmentsOk(format, segments) && |segments| > 0
      requires 0 < takeFrames <= segments[0].packet.frames - segments[0].consumedFrames
      modifies this`segments
      ensures SegmentsOk(format, segments)
      ensures takeFrames <= |old(Stream(format, segments))|
      ensures Stream(format, segments) == old(Stream(format, segments))[takeFrames..]
      ensures bytes == Bytes(old(Stream(format, segments))[..takeFrames])
      ensures flags == FlagsOf(old(Stream(format, segments))[..takeFrames])
    {
      hide AllSilent, AnyDiscontinuity, AnyTimestampError, SamplesFrom, SampleAt, Bytes, ByteLen, FlagsOf;
      var segment := segments[0];
      var startFrame := segment.consumedFrames;
      assert SegmentOk(format, segment);
      TakeFromFront(format, segments, takeFrames);
      BytesOfRun(format, segment.packet, startFrame, takeFrames);
      FlagsOfRun(format, segment.packet, startFrame, takeFrames);
      var discontinuous := segment.discontinuityAtStart && startFrame == 0;
      flags := Flags(segment.packet.flags.silent, discontinuous, segment.packet.flags.timestampError);
      var startByte := ByteLen(startFrame, format.blockAlign);
      var endByte := ByteLen(startFrame + takeFrames, format.blockAlign);
      bytes := segment.packet.bytes[startByte..endByte];
      segments := AfterTake(segments, takeFrames);
    }

    /** Pops one frame, or fails before touching anything. */
    method PopFrame() returns (r: Result<ReframedPacket, Error>)
      requires Valid() && pendingFrames >= format.targetFrames
      modifies this
      ensures Valid()
      ensures r.Success? <==> Fits(old(Pending())[0])
      ensures r.Success? ==>
                && r.value == Merge(old(Pending())[..format.targetFrames])
                && Pending() == old(Pending())[format.targetFrames..]
      ensures r.Failure? ==> r.error == PositionOverflow && Pending() == old(Pending())
    {
      hide Gathered, SegmentsOk, Bytes, Both, FlagsOf, Merge;
      ghost var s := Pending();
      var bytes: seq<byte> := [];
      var framesNeeded: u32 := format.targetFrames;
      var flags := Flags(true, false, false);
      var firstPosition: Option<(u64, u64)> := None;
      NothingGathered(s);
      while framesNeeded > 0
        invariant framesNeeded <= format.targetFrames && pendingFrames == old(pendingFrames)
        invariant SegmentsOk(format, segments)
        invariant Gathered(s, format.targetFrames - framesNeeded, Stream(format, segments), bytes, flags)
        invariant firstPosition.None? ==> framesNeeded == format.targetFrames
        invariant firstPosition.Some? ==> Fits(s[0]) && firstPosition.value == (s[0].device, s[0].qpc)
      {
        GatheredSoFar(s, format.targetFrames - framesNeeded, Stream(format, segments), bytes, flags);
        NonEmptyQueue(format, segments);
        var takeFrames: u32 := Min(framesNeeded, segments[0].packet.frames - segments[0].consumedFrames);
        if firstPosition.None? {
          var position := PositionOf(segments[0]);
          if position.Failure? { return Failure(position.error); }
          firstPosition := Some(position.value);
        }
        ghost var before := Stream(format, segments);
        var takenBytes, takenFlags := TakeFront(takeFrames);
        GatherMore(s, format.targetFrames - framesNeeded, takeFrames, before, bytes, flags);
        flags := Both(flags, takenFlags);
        bytes := bytes + takenBytes;
        framesNeeded := framesNeeded - takeFrames;
      }
      GatheredSoFar(s, format.targetFrames, Stream(format, segments), bytes, flags);
      MergeIs(s[..format.targetFrames]);
      pendingFrames := pendingFrames - format.targetFrames;
      r := Success(ReframedPacket(format.targetFrames, bytes, flags, firstPosition.value.0, firstPosition.value.1));
    }

    /** `push`: exactly the specification's push, on errors too. */
    method Push(packet: CapturedPacket) returns (r: Result<seq<ReframedPacket>, Error>)
      requires Valid()
      modifies this
      ensures Valid()
      ensures Outcome(r, Pending()) == Reframing.Push(format, old(Pending()), packet)
    {
      hide AllSilent, AnyDiscontinuity, AnyTimestampError, SampleAt, SamplesFrom, Bytes, ByteLen, Merge;
      PacketByteLenFits(packet.frames, format.blockAlign);
      var expected := PacketByteLen(packet.frames, format.blockAlign);
      if |packet.bytes| != expected.value { return Failure(PacketByteCountMismatch(expected.value, |packet.bytes|)); }
      if packet.frames == 0 { return Success([]); }
      if packet.flags.dataDiscontinuity { Reset(); }
      if pendingFrames + packet.frames > U64_MAX { return Failure(PositionOverflow); }
      ghost var kept := Pending();
      var segment := PendingSegment(packet, 0, packet.flags.dataDiscontinuity);
      StreamAppend(format, segments, segment);
      pendingFrames := pendingFrames + packet.frames;
      segments := segments + [segment];
      r := Drain();
    }

    /** The loop that ends `push`. */
    method Drain() returns (r: Result<seq<ReframedPacket>, Error>)
      requires Valid()
      modifies this
      ensures Valid()
      ensures Outcome(r, Pending()) == Emit(format, old(Pending()))
    {
      hide AllSilent, AnyDiscontinuity, AnyTimestampError, SampleAt, SamplesFrom, Bytes, ByteLen, Merge, SegmentsOk;
      var output: seq<ReframedPacket> := [];
      PrependNothing(Emit(format, Pending()));
      while pendingFrames >= format.targetFrames
        invariant Valid()
        invariant Emit(format, old(Pending())) == Prepend(output, Emit(format, Pending()))
        decreases pendingFrames
      {
        EmitStep(format, Pending(), output);
        ghost var s := Pending();
        var popped := PopFrame();
        if popped.Failure? { return Failure(popped.error); }
        output := output + [popped.value];
      }
      EmitStops(format, Pending(), output);
      r := Success(output);
    }
  }

  lemma {:induction false} EmitStops(f: Format, s: seq<Sample>, output: seq<ReframedPacket>)
    requires ValidFormat(f) && |s| < f.targetFrames
    ensures Prepend(output, Emit(f, s)) == Outcome(Success(output), s)
  {
    assert output + [] == output;
  }

  lemma {:induction false} MergeIs(s: seq<Sample>)
    requires 0 < |s| <= U32_MAX
    ensures Merge(s) == ReframedPacket(|s|, Bytes(s), FlagsOf(s), s[0].device, s[0].qpc)
  {
  }

  /** Frame accounting guarantees a source segment. */
  lemma {:induction false} NonEmptyQueue(f: Format, segments: seq<PendingSegment>)
    requires ValidFormat(f) && SegmentsOk(f, segments) && |Stream(f, segments)| > 0
    ensures |segments| > 0 && SegmentOk(f, segments[0])
  {
  }

  lemma {:induction false} FirstSample(f: Format, segments: seq<PendingSegment>)
    requires ValidFormat(f) && SegmentsOk(f, segments) && |segments| > 0
    ensures var segment := segments[0];
            && |Stream(f, segments)| > 0
            && Stream(f, segments)[0].device == segment.packet.devicePosition + segment.consumedFrames
            && Stream(f, segments)[0].qpc == segment.packet.qpcPosition + Ticks(segment.consumedFrames, f.sampleRateHz)
  {
    assert SamplesFrom(f, segments[0].packet, segments[0].consumedFrames)[0] ==
           SampleAt(f, segments[0].packet, segments[0].consumedFrames);
  }

  /** Progress of the frame-building loop over the pending stream s. */
  ghost predicate Gathered(s: seq<Sample>, taken: nat, rest: seq<Sample>, bytes: seq<byte>, flags: Flags) {
    taken <= |s| && rest == s[taken..] && bytes == Bytes(s[..taken]) && flags == FlagsOf(s[..taken])
  }

  lemma {:induction false} NothingGathered(s: seq<Sample>)
    ensures Gathered(s, 0, s, [], Flags(true, false, false))
  {
    assert s[0..] == s;
  }

  lemma {:induction false} GatheredSoFar(s: seq<Sample>, taken: nat, rest: seq<Sample>, bytes: seq<byte>, flags: Flags)
    requires Gathered(s, taken, rest, bytes, flags)
    ensures taken <= |s| && |rest| == |s| - taken && rest == s[taken..] && bytes == Bytes(s[..taken])
    ensures flags == FlagsOf(s[..taken])
    ensures taken == 0 ==> rest == s
  {
  }

  lemma {:induction false} GatherMore(
    s: seq<Sample>, taken: nat, take: nat, rest: seq<Sample>, bytes: seq<byte>, flags: Flags)
    requires Gathered(s, taken, rest, bytes, flags) && take <= |rest|
    ensures Gathered(s, taken + take, rest[take..], bytes + Bytes(rest[..take]), Both(flags, FlagsOf(rest[..take])))
  {
    var run := rest[..take];
    assert s[..taken + take] == s[..taken] + run;
    BytesAppend(s[..taken], run);
    FlagsAppend(s[..taken], run);
    hide FlagsOf, Bytes, Both;
  }

  lemma {:induction false} EmitStep(f: Format, s: seq<Sample>, output: seq<ReframedPacket>)
    requires ValidFormat(f) && |s| >= f.targetFrames
    ensures !Fits(s[0]) ==> Prepend(output, Emit(f, s)) == Outcome(Failure(PositionOverflow), s)
    ensures Fits(s[0]) ==>
              Prepend(output, Emit(f, s)) ==
              Prepend(output + [Merge(s[..f.targetFrames])], Emit(f, s[f.targetFrames..]))
  {
    hide Merge;
    var m, o := Merge(s[..f.targetFrames]), Emit(f, s[f.targetFrames..]);
    if Fits(s[0]) && o.result.Success? { assert output + ([m] + o.result.value) == (output + [m]) + o.result.value; }
  }

  lemma {:induction false} PrependNothing(o: Outcome)
    ensures Prepend([], o) == o
  {
    if o.result.Success? { assert [] + o.result.value == o.result.value; }
  }
}
