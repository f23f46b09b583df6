/**
 What the packet reframer promises, stated on audio frames. A captured packet is a list of audio frames (called
 samples here), each with its bytes, its packet's flags and its own position; a discontinuity marks the first
 sample of its packet. Cutting the sample stream into equal chunks is then the whole specification.
 */
module Reframing {
  import opened Words
  import opened Wrappers
  import opened Arithmetic

  datatype Flags = Flags(silent: bool, dataDiscontinuity: bool, timestampError: bool)

  datatype CapturedPacket = CapturedPacket(
    frames: u32, bytes: seq<byte>, flags: Flags, devicePosition: u64, qpcPosition: u64)

  datatype ReframedPacket = ReframedPacket(
    frames: u32, bytes: seq<byte>, flags: Flags, devicePosition: nat, qpcPosition: nat)

  datatype Error =
    | BlockAlignZero
    | TargetFrameCountZero
    | PacketSizeOverflow(frames: u32, blockAlign: u16)
    | PacketByteCountMismatch(expected: nat, actual: nat)
    | PositionOverflow

  /** Block alignment, pipeline frame size and sample rate of one capture session. */
  datatype Format = Format(blockAlign: u16, targetFrames: u32, sampleRateHz: u32)

  predicate ValidFormat(f: Format) { 0 < f.blockAlign && 0 < f.targetFrames && 0 < f.sampleRateHz }

  // ----- byte counts -----

  function ByteLen(frames: nat, blockAlign: nat): nat {
    if frames == 0 then 0 else ByteLen(frames - 1, blockAlign) + blockAlign
  }

  lemma {:induction false} ByteLenIsProduct(frames: nat, blockAlign: nat)
    ensures ByteLen(frames, blockAlign) == frames * blockAlign
  {
    if frames > 0 {
      ByteLenIsProduct(frames - 1, blockAlign);
      assert frames * blockAlign == (frames - 1) * blockAlign + blockAlign;
    }
  }

  lemma {:induction false} ByteLenAdds(a: nat, b: nat, blockAlign: nat)
    ensures ByteLen(a + b, blockAlign) == ByteLen(a, blockAlign) + ByteLen(b, blockAlign)
  {
    if b > 0 { ByteLenAdds(a, b - 1, blockAlign); }
  }

  lemma {:induction false} ByteLenMonotone(a: nat, b: nat, blockAlign: nat)
    requires a <= b
    ensures ByteLen(a, blockAlign) <= ByteLen(b, blockAlign)
  {
    ByteLenAdds(a, b - a, blockAlign);
  }

  /** `packet_byte_len` with a 64-bit `usize`. */
  function PacketByteLen(frames: u32, blockAlign: u16): Result<u64, Error> {
    if frames * blockAlign <= U64_MAX && 0 <= frames * blockAlign then Success(frames * blockAlign)
    else Failure(PacketSizeOverflow(frames, blockAlign))
  }

  /** A 32-bit count of 16-bit blocks always fits: the size overflow is never reported. */
  lemma {:induction false} PacketByteLenFits(frames: u32, blockAlign: u16)
    ensures PacketByteLen(frames, blockAlign) == Success(ByteLen(frames, blockAlign))
  {
    ByteLenIsProduct(frames, blockAlign);
    BoundedProduct(frames, blockAlign, U32_MAX, U16_MAX);
  }

  /** `frames_to_100ns`. */
  function FramesTo100ns(frames: u64, sampleRateHz: u32): Result<u64, Error>
    requires 0 < sampleRateHz
  {
    if frames * 10_000_000 > U64_MAX then Failure(PositionOverflow) else Success(Ticks(frames, sampleRateHz))
  }

  function Ticks(frames: nat, sampleRateHz: nat): (t: nat)
    requires 0 < sampleRateHz
    ensures t <= frames * 10_000_000
  {
    QuotientAtMost(frames * 10_000_000, sampleRateHz);
    frames * 10_000_000 / sampleRateHz
  }

  // ----- the sample stream -----

  datatype Sample = Sample(
    bytes: seq<byte>, silent: bool, discontinuity: bool, timestampError: bool, device: nat, qpc: nat)

  predicate WellFormed(f: Format, p: CapturedPacket) { |p.bytes| == ByteLen(p.frames, f.blockAlign) }

  function SampleAt(f: Format, p: CapturedPacket, i: nat): Sample
    requires ValidFormat(f) && WellFormed(f, p) && i < p.frames
  {
    ByteLenMonotone(i + 1, p.frames, f.blockAlign);
    Sample(p.bytes[ByteLen(i, f.blockAlign)..ByteLen(i + 1, f.blockAlign)],
           p.flags.silent, p.flags.dataDiscontinuity && i == 0, p.flags.timestampError,
           p.devicePosition + i, p.qpcPosition + Ticks(i, f.sampleRateHz))
  }

  /** The samples of a packet from index `from` on. */
  function SamplesFrom(f: Format, p: CapturedPacket, from: nat): (s: seq<Sample>)
    requires ValidFormat(f) && WellFormed(f, p) && from <= p.frames
    ensures |s| == p.frames - from
  {
    seq(p.frames - from, i requires 0 <= i < p.frames - from => SampleAt(f, p, from + i))
  }

  function Bytes(s: seq<Sample>): seq<byte> {
    if |s| == 0 then [] else Bytes(s[..|s| - 1]) + s[|s| - 1].bytes
  }

  lemma {:induction false} BytesAppend(a: seq<Sample>, b: seq<Sample>)
    ensures Bytes(a + b) == Bytes(a) + Bytes(b)
  {
    if |b| == 0 {
      assert a + b == a;
    } else {
      BytesAppend(a, b[..|b| - 1]);
      assert (a + b)[..|a + b| - 1] == a + b[..|b| - 1];
    }
  }

  /** A run of one packet's samples carries exactly that stretch of the packet's bytes. */
  lemma {:induction false} BytesOfRun(f: Format, p: CapturedPacket, from: nat, take: nat)
    requires ValidFormat(f) && WellFormed(f, p) && from + take <= p.frames
    ensures ByteLen(from, f.blockAlign) <= ByteLen(from + take, f.blockAlign) <= |p.bytes|
    ensures Bytes(SamplesFrom(f, p, from)[..take]) ==
            p.bytes[ByteLen(from, f.blockAlign)..ByteLen(from + take, f.blockAlign)]
  {
    ByteLenMonotone(from, from + take, f.blockAlign);
    ByteLenMonotone(from + take, p.frames, f.blockAlign);
    if take > 0 {
      BytesOfRun(f, p, from, take - 1);
      var run := SamplesFrom(f, p, from)[..take];
      assert run[..take - 1] == SamplesFrom(f, p, from)[..take - 1];
      assert run[take - 1] == SampleAt(f, p, from + take - 1);
      var m := ByteLen(from + take - 1, f.blockAlign);
      assert p.bytes[ByteLen(from, f.blockAlign)..m] + p.bytes[m..ByteLen(from + take, f.blockAlign)]
          == p.bytes[ByteLen(from, f.blockAlign)..ByteLen(from + take, f.blockAlign)];
    }
  }

  // ----- cutting a stream -----

  /** The complete n-element pieces of a sequence. */
  function Cut<X>(s: seq<X>, n: nat): seq<seq<X>>
    requires 0 < n
  {
    if |s| < n then [] else [s[..n]] + Cut(s[n..], n)
  }

  /** What is left over. */
  function Rest<X>(s: seq<X>, n: nat): seq<X>
    requires 0 < n
  {
    if |s| < n then s else Rest(s[n..], n)
  }

  function Join<X>(pieces: seq<seq<X>>): seq<X> {
    if |pieces| == 0 then [] else pieces[0] + Join(pieces[1..])
  }

  /** Cutting loses nothing, leaves less than one piece, and makes pieces of exactly n. */
  lemma {:induction false} CutIsExact<X>(s: seq<X>, n: nat)
    requires 0 < n
    ensures Join(Cut(s, n)) + Rest(s, n) == s
    ensures |Rest(s, n)| < n
    ensures forall k :: 0 <= k < |Cut(s, n)| ==> |Cut(s, n)[k]| == n
  {
    if |s| >= n {
      CutIsExact(s[n..], n);
      assert s == s[..n] + s[n..];
      assert Cut(s, n)[1..] == Cut(s[n..], n);
    }
  }

  /** Cutting can be done as the stream arrives. */
  lemma {:induction false} CutIncrementally<X>(a: seq<X>, b: seq<X>, n: nat)
    requires 0 < n
    ensures Cut(a + b, n) == Cut(a, n) + Cut(Rest(a, n) + b, n)
    ensures Rest(a + b, n) == Rest(Rest(a, n) + b, n)
  {
    if |a| >= n {
      CutIncrementally(a[n..], b, n);
      assert (a + b)[..n] == a[..n] && (a + b)[n..] == a[n..] + b;
    }
  }

  /** Piece k starts at element k * n. */
  lemma {:induction false} PieceAt<X>(s: seq<X>, n: nat, k: nat)
    requires 0 < n && k < |Cut(s, n)|
    ensures ByteLen(k + 1, n) <= |s| && Cut(s, n)[k] == s[ByteLen(k, n)..ByteLen(k + 1, n)]
  {
    ByteLenAdds(1, k, n);
    ByteLenAdds(1, k + 1, n);
    assert ByteLen(1, n) == n;
    if k > 0 {
      PieceAt(s[n..], n, k - 1);
      assert Cut(s, n)[k] == Cut(s[n..], n)[k - 1];
    }
  }

  // ----- one output frame -----

  predicate AllSilent(s: seq<Sample>) { forall i :: 0 <= i < |s| ==> s[i].silent }

  predicate AnyTimestampError(s: seq<Sample>) { exists i :: 0 <= i < |s| && s[i].timestampError }

  predicate AnyDiscontinuity(s: seq<Sample>) { exists i :: 0 <= i < |s| && s[i].discontinuity }

  predicate Fits(s: Sample) { s.device <= U64_MAX && s.qpc <= U64_MAX }

  function Merge(s: seq<Sample>): ReframedPacket
    requires 0 < |s| <= U32_MAX
  {
    ReframedPacket(|s|, Bytes(s), Flags(AllSilent(s), AnyDiscontinuity(s), AnyTimestampError(s)), s[0].device, s[0].qpc)
  }

  function MergeAll(pieces: seq<seq<Sample>>): (r: seq<ReframedPacket>)
    requires forall k :: 0 <= k < |pieces| ==> 0 < |pieces[k]| <= U32_MAX
    ensures |r| == |pieces|
  {
    seq(|pieces|, k requires 0 <= k < |pieces| => Merge(pieces[k]))
  }

  // ----- one push, as `PacketReframer::push` performs it -----

  datatype Outcome = Outcome(result: Result<seq<ReframedPacket>, Error>, pending: seq<Sample>)

  function Prepend(outputs: seq<ReframedPacket>, o: Outcome): Outcome {
    if o.result.Success? then Outcome(Success(outputs + o.result.value), o.pending) else o
  }

  /** Pops frames until too little is pending or a position does not fit. */
  function Emit(f: Format, s: seq<Sample>): Outcome
    requires ValidFormat(f)
  {
    if |s| < f.targetFrames then Outcome(Success([]), s)
    else if !Fits(s[0]) then Outcome(Failure(PositionOverflow), s)
    else Prepend([Merge(s[..f.targetFrames])], Emit(f, s[f.targetFrames..]))
  }

  function Push(f: Format, pending: seq<Sample>, p: CapturedPacket): Outcome
    requires ValidFormat(f)
  {
    if !WellFormed(f, p)
      then Outcome(Failure(PacketByteCountMismatch(ByteLen(p.frames, f.blockAlign), |p.bytes|)), pending)
    else if p.frames == 0 then Outcome(Success([]), pending)
    else
      var kept := if p.flags.dataDiscontinuity then [] else pending;
      if |kept| + p.frames > U64_MAX then Outcome(Failure(PositionOverflow), kept)
      else Emit(f, kept + SamplesFrom(f, p, 0))
  }

  /** A list of packets pushed in order, up to the first failure. */
  function Feed(f: Format, packets: seq<CapturedPacket>): Outcome
    requires ValidFormat(f)
  {
    if |packets| == 0 then Outcome(Success([]), [])
    else
      var before := Feed(f, packets[..|packets| - 1]);
      if before.result.Failure? then before
        else Prepend(before.result.value, Push(f, before.pending, packets[|packets| - 1]))
  }

  /**
   A packet whose byte count does not match its frames is refused with both counts, and an empty one is ignored even
   with a discontinuity flag. Neither touches what is pending, so the next packet is pushed as if it had not come.
   */
  lemma {:induction false} PushWithoutEffect(f: Format, pending: seq<Sample>, p: CapturedPacket, next: CapturedPacket)
    requires ValidFormat(f) && (p.frames == 0 || |p.bytes| != p.frames * f.blockAlign)
    ensures Push(f, pending, p).result ==
              if |p.bytes| != p.frames * f.blockAlign
                then Failure(PacketByteCountMismatch(p.frames * f.blockAlign, |p.bytes|))
              else Success([])
    ensures Push(f, pending, p).pending == pending
    ensures Push(f, Push(f, pending, p).pending, next) == Push(f, pending, next)
  {
    ByteLenIsProduct(p.frames, f.blockAlign);
    hide Emit, SamplesFrom, ByteLen;
  }

  // ----- the reference: cut each stretch between discontinuities as a whole -----

  /** An empty packet is ignored even when it carries the discontinuity flag. */
  predicate Restarts(p: CapturedPacket) { p.frames > 0 && p.flags.dataDiscontinuity }

  /** Where the last stretch of the list begins. */
  function StretchStart(packets: seq<CapturedPacket>): (i: nat)
    ensures |packets| == 0 ==> i == 0
    ensures |packets| > 0 ==> i < |packets| && (i > 0 ==> Restarts(packets[i]))
    ensures forall k :: i < k < |packets| ==> !Restarts(packets[k])
  {
    if |packets| == 0 then 0
    else if Restarts(packets[|packets| - 1]) then |packets| - 1
    else StretchStart(packets[..|packets| - 1])
  }

  predicate AllWellFormed(f: Format, packets: seq<CapturedPacket>) {
    forall i :: 0 <= i < |packets| ==> WellFormed(f, packets[i])
  }

  /** All samples of a list of packets. */
  function Flat(f: Format, packets: seq<CapturedPacket>): seq<Sample>
    requires ValidFormat(f) && AllWellFormed(f, packets)
  {
    if |packets| == 0 then [] else Flat(f, packets[..|packets| - 1]) + SamplesFrom(f, packets[|packets| - 1], 0)
  }

  function Frames(f: Format, s: seq<Sample>): seq<ReframedPacket>
    requires ValidFormat(f)
  {
    CutIsExact(s, f.targetFrames);
    MergeAll(Cut(s, f.targetFrames))
  }

  function Reference(f: Format, packets: seq<CapturedPacket>): seq<ReframedPacket>
    requires ValidFormat(f) && AllWellFormed(f, packets)
  {
    if |packets| == 0 then []
    else
      var i := StretchStart(packets);
      Reference(f, packets[..i]) + Frames(f, Flat(f, packets[i..]))
  }

  predicate AllFit(outputs: seq<ReframedPacket>) {
    forall k :: 0 <= k < |outputs| ==> outputs[k].devicePosition <= U64_MAX && outputs[k].qpcPosition <= U64_MAX
  }

  lemma {:induction false} AllFitSplits(a: seq<ReframedPacket>, b: seq<ReframedPacket>)
    ensures AllFit(a + b) <==> AllFit(a) && AllFit(b)
  {
    if AllFit(a + b) {
      forall k | 0 <= k < |a|
        ensures a[k].devicePosition <= U64_MAX && a[k].qpcPosition <= U64_MAX
      {
        assert a[k] == (a + b)[k];
      }
      forall k | 0 <= k < |b|
        ensures b[k].devicePosition <= U64_MAX && b[k].qpcPosition <= U64_MAX
      {
        assert b[k] == (a + b)[|a| + k];
      }
    }
  }

  lemma {:induction false} AllFitOne(m: ReframedPacket)
    ensures AllFit([m]) <==> m.devicePosition <= U64_MAX && m.qpcPosition <= U64_MAX
  {
    assert [m][0] == m;
  }

  lemma {:induction false} MergeAllStep(first: seq<Sample>, others: seq<seq<Sample>>)
    requires 0 < |first| <= U32_MAX && forall k :: 0 <= k < |others| ==> 0 < |others[k]| <= U32_MAX
    ensures MergeAll([first] + others) == [Merge(first)] + MergeAll(others)
  {
    hide Merge;
  }

  lemma {:induction false} FramesStep(f: Format, s: seq<Sample>)
    requires ValidFormat(f)
    ensures |s| < f.targetFrames ==> Frames(f, s) == [] && Rest(s, f.targetFrames) == s
    ensures |s| >= f.targetFrames ==>
              && Frames(f, s) == [Merge(s[..f.targetFrames])] + Frames(f, s[f.targetFrames..])
              && Rest(s, f.targetFrames) == Rest(s[f.targetFrames..], f.targetFrames)
  {
    hide Merge, MergeAll;
    CutIsExact(s, f.targetFrames);
    if |s| >= f.targetFrames {
      CutIsExact(s[f.targetFrames..], f.targetFrames);
      MergeAllStep(s[..f.targetFrames], Cut(s[f.targetFrames..], f.targetFrames));
    }
  }

  /** Popping frame by frame succeeds exactly when every position fits, and then yields the whole cut. */
  lemma {:induction false} EmitIsFrames(f: Format, s: seq<Sample>)
    requires ValidFormat(f)
    ensures Emit(f, s).result.Success? <==> AllFit(Frames(f, s))
    ensures Emit(f, s).result.Success? ==> Emit(f, s) == Outcome(Success(Frames(f, s)), Rest(s, f.targetFrames))
    decreases |s|
  {
    FramesStep(f, s);
    if |s| >= f.targetFrames {
      EmitIsFrames(f, s[f.targetFrames..]);
      AllFitSplits([Merge(s[..f.targetFrames])], Frames(f, s[f.targetFrames..]));
      AllFitOne(Merge(s[..f.targetFrames]));
    }
  }

  // ----- theorems -----

  lemma {:induction false} FlatStep(f: Format, packets: seq<CapturedPacket>, i: nat)
    requires ValidFormat(f) && AllWellFormed(f, packets) && i < |packets|
    ensures Flat(f, packets[i..]) == Flat(f, packets[..|packets| - 1][i..]) + SamplesFrom(f, packets[|packets| - 1], 0)
  {
    var n := |packets|;
    assert packets[i..][..n - i - 1] == packets[..n - 1][i..];
    assert packets[i..][n - i - 1] == packets[n - 1];
  }

  lemma {:induction false} FramesIncrementally(f: Format, a: seq<Sample>, b: seq<Sample>)
    requires ValidFormat(f)
    ensures Frames(f, a + b) == Frames(f, a) + Frames(f, Rest(a, f.targetFrames) + b)
  {
    hide Merge, Cut, Rest, Join;
    CutIncrementally(a, b, f.targetFrames);
    CutIsExact(a + b, f.targetFrames);
    CutIsExact(a, f.targetFrames);
    CutIsExact(Rest(a, f.targetFrames) + b, f.targetFrames);
    var first, second := Cut(a, f.targetFrames), Cut(Rest(a, f.targetFrames) + b, f.targetFrames);
    assert MergeAll(first + second) == MergeAll(first) + MergeAll(second);
  }

  /** What a push of a non-empty packet adds to the reference. */
  lemma {:induction false} ReferenceStep(f: Format, packets: seq<CapturedPacket>)
    requires ValidFormat(f) && AllWellFormed(f, packets) && |packets| > 0
    ensures var earlier := packets[..|packets| - 1];
            var p := packets[|packets| - 1];
            var kept := if Restarts(p) then [] else Rest(Flat(f, earlier[StretchStart(earlier)..]), f.targetFrames);
            && Reference(f, packets) == Reference(f, earlier) + Frames(f, kept + SamplesFrom(f, p, 0))
            && Rest(Flat(f, packets[StretchStart(packets)..]), f.targetFrames) ==
               Rest(kept + SamplesFrom(f, p, 0), f.targetFrames)
  {
    var n := |packets|;
    var earlier, p := packets[..n - 1], packets[n - 1];
    if Restarts(p) {
      assert StretchStart(packets) == n - 1 && earlier[n - 1..] == [] && packets[..n - 1] == earlier;
      assert Flat(f, []) == [];
      FlatStep(f, packets, n - 1);
      hide Frames, Rest, Flat, SamplesFrom;
      assert [] + SamplesFrom(f, p, 0) == SamplesFrom(f, p, 0);
    } else {
      ReferenceContinues(f, packets);
    }
  }

  /** The same for a packet that continues the stretch. */
  lemma {:induction false} ReferenceContinues(f: Format, packets: seq<CapturedPacket>)
    requires ValidFormat(f) && AllWellFormed(f, packets) && |packets| > 0 && !Restarts(packets[|packets| - 1])
    ensures var earlier := packets[..|packets| - 1];
            var kept := Rest(Flat(f, earlier[StretchStart(earlier)..]), f.targetFrames);
            var added := SamplesFrom(f, packets[|packets| - 1], 0);
            && Reference(f, packets) == Reference(f, earlier) + Frames(f, kept + added)
            && Rest(Flat(f, packets[StretchStart(packets)..]), f.targetFrames) == Rest(kept + added, f.targetFrames)
  {
    var n := |packets|;
    var earlier := packets[..n - 1];
    var i := StretchStart(packets);
    assert i == StretchStart(earlier) && packets[..i] == earlier[..i];
    LastStretch(f, packets);
    LastStretch(f, earlier);
    var s, added := Flat(f, earlier[i..]), SamplesFrom(f, packets[n - 1], 0);
    assert earlier[..i] == packets[..i];
    FlatStep(f, packets, i);
    hide Frames, Rest, Flat, SamplesFrom, StretchStart, Reference, WellFormed;
    hide AllWellFormed;
    FramesIncrementally(f, s, added);
    CutIncrementally(s, added, f.targetFrames);
  }

  /** The reference ends with the frames of the last stretch. */
  lemma {:induction false} LastStretch(f: Format, packets: seq<CapturedPacket>)
    requires ValidFormat(f) && AllWellFormed(f, packets)
    ensures var i := StretchStart(packets);
            Reference(f, packets) == Reference(f, packets[..i]) + Frames(f, Flat(f, packets[i..]))
  {
    if |packets| == 0 {
      assert packets[..0] == [] && packets[0..] == [] && Flat(f, []) == [];
      FramesStep(f, []);
    }
    hide Frames, Flat;
  }

  /**
   The main theorem. However a list of well-formed packets is pushed, the outputs are the frames of each stretch
   between discontinuities cut as a whole, and what stays pending is the partial frame of the last stretch.
   The only way to fail is an output position beyond 64 bits.
   */
  lemma {:induction false} StreamEquality(f: Format, packets: seq<CapturedPacket>)
    requires ValidFormat(f) && AllWellFormed(f, packets)
    ensures var o := Feed(f, packets);
            && (o.result.Success? <==> AllFit(Reference(f, packets)))
            && (o.result.Failure? ==> o.result.error == PositionOverflow)
            && (o.result.Success? ==>
                  && o.result.value == Reference(f, packets)
                  && o.pending == Rest(Flat(f, packets[StretchStart(packets)..]), f.targetFrames)
                  && |o.pending| < f.targetFrames)
  {
    var n := |packets|;
    if n == 0 {
      assert packets[0..] == [];
    } else {
      var earlier, p := packets[..n - 1], packets[n - 1];
      StreamEquality(f, earlier);
      ReferenceStep(f, packets);
      var kept := if Restarts(p) then [] else Rest(Flat(f, earlier[StretchStart(earlier)..]), f.targetFrames);
      var s := kept + SamplesFrom(f, p, 0);
      CutIsExact(Flat(f, earlier[StretchStart(earlier)..]), f.targetFrames);
      CutIsExact(s, f.targetFrames);
      EmitIsFrames(f, s);
      EmitError(f, s);
      AllFitSplits(Reference(f, earlier), Frames(f, s));
      if p.frames == 0 {
        assert s == kept;
        FramesStep(f, kept);
      }
      hide Frames, Emit, Flat, AllFit, Reference, Rest, Cut, StretchStart;
    }
  }

  lemma {:induction false} EmitError(f: Format, s: seq<Sample>)
    requires ValidFormat(f)
    ensures Emit(f, s).result.Failure? ==> Emit(f, s).result.error == PositionOverflow
    decreases |s|
  {
    if |s| >= f.targetFrames { EmitError(f, s[f.targetFrames..]); }
  }

  // ----- after a failure -----

  /** A complete frame is pending whose position does not fit. */
  predicate Stuck(f: Format, s: seq<Sample>) {
    0 < |s| && f.targetFrames <= |s| && !Fits(s[0])
  }

  predicate UnfitAt(outputs: seq<ReframedPacket>, k: nat, first: Sample) {
    && k < |outputs| && AllFit(outputs[..k])
    && outputs[k].devicePosition == first.device && outputs[k].qpcPosition == first.qpc
  }

  /** The pop loop fails at the first frame that does not fit, and leaves it and all that follows pending. */
  lemma {:induction false} EmitFailsAt(f: Format, s: seq<Sample>) returns (k: nat)
    requires ValidFormat(f) && Emit(f, s).result.Failure?
    ensures var left := Emit(f, s).pending; Stuck(f, left) && UnfitAt(Frames(f, s), k, left[0])
    decreases |s|
  {
    FramesStep(f, s);
    k := 0;
    if Fits(s[0]) {
      var head, tail := Merge(s[..f.targetFrames]), s[f.targetFrames..];
      k := EmitFailsAt(f, tail);
      assert Frames(f, s)[..k + 1] == [head] + Frames(f, tail)[..k];
      AllFitSplits([head], Frames(f, tail)[..k]);
      AllFitOne(head);
      k := k + 1;
    }
  }

  /**
   When a stream of well-formed packets fails, what is pending begins with the audio frame at the position that
   did not fit: that of the first output of the reference that does not.
   */
  lemma {:induction false} StreamFailure(f: Format, packets: seq<CapturedPacket>) returns (k: nat)
    requires ValidFormat(f) && AllWellFormed(f, packets) && Feed(f, packets).result.Failure?
    ensures var left := Feed(f, packets).pending; Stuck(f, left) && UnfitAt(Reference(f, packets), k, left[0])
  {
    var earlier, p := packets[..|packets| - 1], packets[|packets| - 1];
    ReferenceSteps(f, packets);
    if Feed(f, earlier).result.Failure? {
      k := StreamFailure(f, earlier);
      hide Reference, Frames, Stuck, UnfitAt, Push, SamplesFrom, Emit;
      UnfitBefore(Reference(f, earlier), Frames(f, Kept(f, packets) + SamplesFrom(f, p, 0)), k,
        Feed(f, earlier).pending[0]);
    } else {
      FailingPush(f, packets);
      hide Reference, Frames, Stuck, UnfitAt, Feed, SamplesFrom, Emit;
      k := FailingEmit(f, Reference(f, earlier), Kept(f, packets) + SamplesFrom(f, p, 0));
    }
  }

  /** What of the earlier packets is still pending when the last one arrives. */
  function Kept(f: Format, packets: seq<CapturedPacket>): seq<Sample>
    requires ValidFormat(f) && AllWellFormed(f, packets) && |packets| > 0
  {
    var earlier := packets[..|packets| - 1];
    if Restarts(packets[|packets| - 1]) then [] else Rest(Flat(f, earlier[StretchStart(earlier)..]), f.targetFrames)
  }

  lemma {:induction false} ReferenceSteps(f: Format, packets: seq<CapturedPacket>)
    requires ValidFormat(f) && AllWellFormed(f, packets) && |packets| > 0
    ensures Reference(f, packets)
         == Reference(f, packets[..|packets| - 1]) +
           Frames(f, Kept(f, packets) + SamplesFrom(f, packets[|packets| - 1], 0))
  {
    ReferenceStep(f, packets);
    hide Reference, Frames, SamplesFrom, Rest, Flat, StretchStart;
  }

  /** The first push that fails is the pop loop's failure on what was kept and the packet. */
  lemma {:induction false} FailingPush(f: Format, packets: seq<CapturedPacket>)
    requires ValidFormat(f) && AllWellFormed(f, packets) && |packets| > 0 && Feed(f, packets).result.Failure?
    requires Feed(f, packets[..|packets| - 1]).result.Success?
    ensures Feed(f, packets) == Emit(f, Kept(f, packets) + SamplesFrom(f, packets[|packets| - 1], 0))
    ensures AllFit(Reference(f, packets[..|packets| - 1]))
  {
    var earlier, p := packets[..|packets| - 1], packets[|packets| - 1];
    StreamEquality(f, earlier);
    PushEmits(f, Feed(f, earlier).pending, p);
    hide Emit, SamplesFrom, Push, Reference, Rest, Flat, StretchStart, AllFit;
  }

  lemma {:induction false} FailingEmit(f: Format, a: seq<ReframedPacket>, s: seq<Sample>) returns (k: nat)
    requires ValidFormat(f) && AllFit(a) && Emit(f, s).result.Failure?
    ensures var left := Emit(f, s).pending; Stuck(f, left) && UnfitAt(a + Frames(f, s), k, left[0])
  {
    k := EmitFailsAt(f, s);
    hide Emit, Frames, AllFit, UnfitAt, Stuck;
    UnfitAfter(a, Frames(f, s), k, Emit(f, s).pending[0]);
    k := |a| + k;
  }

  lemma {:induction false} PushEmits(f: Format, pending: seq<Sample>, p: CapturedPacket)
    requires ValidFormat(f) && WellFormed(f, p) && |pending| < f.targetFrames && Push(f, pending, p).result.Failure?
    ensures Push(f, pending, p) == Emit(f, (if Restarts(p) then [] else pending) + SamplesFrom(f, p, 0))
  {
    hide Emit, SamplesFrom;
  }

  lemma {:induction false} UnfitBefore(a: seq<ReframedPacket>, b: seq<ReframedPacket>, k: nat, first: Sample)
    requires UnfitAt(a, k, first)
    ensures UnfitAt(a + b, k, first)
  {
    assert (a + b)[..k] == a[..k];
  }

  lemma {:induction false} UnfitAfter(a: seq<ReframedPacket>, b: seq<ReframedPacket>, k: nat, first: Sample)
    requires AllFit(a) && UnfitAt(b, k, first)
    ensures UnfitAt(a + b, |a| + k, first)
  {
    AllFitSplits(a, b[..k]);
    assert (a + b)[..|a| + k] == a + b[..k];
  }

  /** A well-formed restarting packet, the only kind that drops what is pending. */
  predicate Reopens(f: Format, p: CapturedPacket) { WellFormed(f, p) && Restarts(p) }

  /** What is pending after a list of packets has been pushed, whatever each push answered. */
  function PendingAfter(f: Format, pending: seq<Sample>, packets: seq<CapturedPacket>): seq<Sample>
    requires ValidFormat(f)
  {
    if |packets| == 0 then pending
    else Push(f, PendingAfter(f, pending, packets[..|packets| - 1]), packets[|packets| - 1]).pending
  }

  /**
   From then on, until a well-formed non-empty discontinuous packet, a push overflows exactly when its packet is
   well-formed and not empty, and the frame that does not fit stays first. Such a packet is pushed as into an empty
   reframer.
   */
  lemma {:induction false} OverflowPersists(
    f: Format, pending: seq<Sample>, packets: seq<CapturedPacket>, p: CapturedPacket)
    requires ValidFormat(f) && Stuck(f, pending) && forall i :: 0 <= i < |packets| ==> !Reopens(f, packets[i])
    ensures var now := PendingAfter(f, pending, packets);
            && Stuck(f, now) && now[0] == pending[0] && pending <= now
            && (!Reopens(f, p) ==>
               (Push(f, now, p).result == Failure(PositionOverflow) <==> WellFormed(f, p) && p.frames > 0))
            && (Reopens(f, p) ==> Push(f, now, p) == Push(f, [], p))
  {
    if |packets| > 0 { OverflowPersists(f, pending, packets[..|packets| - 1], packets[|packets| - 1]); }
    hide SamplesFrom, WellFormed;
  }

  // ----- bytes: only the byte stream matters -----

  function StretchBytes(packets: seq<CapturedPacket>): seq<byte> {
    if |packets| == 0 then [] else StretchBytes(packets[..|packets| - 1]) + packets[|packets| - 1].bytes
  }

  predicate Uniform(f: Format, s: seq<Sample>) { forall i :: 0 <= i < |s| ==> |s[i].bytes| == f.blockAlign }

  lemma {:induction false} BytesOfPacket(f: Format, p: CapturedPacket)
    requires ValidFormat(f) && WellFormed(f, p)
    ensures Bytes(SamplesFrom(f, p, 0)) == p.bytes
  {
    BytesOfRun(f, p, 0, p.frames);
    assert SamplesFrom(f, p, 0)[..p.frames] == SamplesFrom(f, p, 0);
    assert ByteLen(0, f.blockAlign) == 0;
    hide Bytes, SamplesFrom, ByteLen;
  }

  lemma {:induction false} SampleWidth(f: Format, p: CapturedPacket, i: nat)
    requires ValidFormat(f) && WellFormed(f, p) && i < p.frames
    ensures |SampleAt(f, p, i).bytes| == f.blockAlign
  {
    ByteLenMonotone(i + 1, p.frames, f.blockAlign);
    assert ByteLen(i + 1, f.blockAlign) == ByteLen(i, f.blockAlign) + f.blockAlign;
  }

  lemma {:induction false} SamplesAreUniform(f: Format, p: CapturedPacket)
    requires ValidFormat(f) && WellFormed(f, p)
    ensures Uniform(f, SamplesFrom(f, p, 0))
  {
    forall i | 0 <= i < p.frames ensures |SampleAt(f, p, i).bytes| == f.blockAlign { SampleWidth(f, p, i); }
    hide SampleAt, ByteLen;
  }

  lemma {:induction false} BytesOfFlat(f: Format, packets: seq<CapturedPacket>)
    requires ValidFormat(f) && AllWellFormed(f, packets)
    ensures Bytes(Flat(f, packets)) == StretchBytes(packets)
    ensures Uniform(f, Flat(f, packets))
  {
    if |packets| > 0 {
      var p := packets[|packets| - 1];
      BytesOfFlat(f, packets[..|packets| - 1]);
      BytesAppend(Flat(f, packets[..|packets| - 1]), SamplesFrom(f, p, 0));
      BytesOfPacket(f, p);
      SamplesAreUniform(f, p);
      hide SamplesFrom, ByteLen;
    }
  }

  lemma {:induction false} UniformBytes(f: Format, s: seq<Sample>)
    requires Uniform(f, s)
    ensures |Bytes(s)| == ByteLen(|s|, f.blockAlign)
  {
    if |s| > 0 { UniformBytes(f, s[..|s| - 1]); }
  }

  function OutputBytes(outputs: seq<ReframedPacket>): seq<seq<byte>> {
    seq(|outputs|, k requires 0 <= k < |outputs| => outputs[k].bytes)
  }

  lemma {:induction false} CutBytes(f: Format, s: seq<Sample>)
    requires ValidFormat(f) && Uniform(f, s)
    ensures 0 < ByteLen(f.targetFrames, f.blockAlign)
    ensures OutputBytes(Frames(f, s)) == Cut(Bytes(s), ByteLen(f.targetFrames, f.blockAlign))
    ensures Bytes(Rest(s, f.targetFrames)) == Rest(Bytes(s), ByteLen(f.targetFrames, f.blockAlign))
    decreases |s|
  {
    var n, m := f.targetFrames, ByteLen(f.targetFrames, f.blockAlign);
    FramesStep(f, s);
    UniformBytes(f, s);
    if |s| < n {
      ByteLenAdds(|s|, n - |s| - 1, f.blockAlign);
      ByteLenAdds(|s| + (n - |s| - 1), 1, f.blockAlign);
      assert ByteLen(1, f.blockAlign) == f.blockAlign;
    } else {
      var head, tail := s[..n], s[n..];
      CutBytes(f, tail);
      UniformBytes(f, head);
      UniformBytes(f, tail);
      BytesAppend(head, tail);
      assert s == head + tail;
      assert Bytes(s)[..m] == Bytes(head) && Bytes(s)[m..] == Bytes(tail);
      OutputBytesStep(Merge(head), Frames(f, tail));
    }
  }

  lemma {:induction false} OutputBytesStep(first: ReframedPacket, others: seq<ReframedPacket>)
    ensures OutputBytes([first] + others) == [first.bytes] + OutputBytes(others)
  {
  }

  /**
   Within a stretch the output bytes are the byte stream cut at fixed offsets and the pending bytes are what is
   left, so packet boundaries leave no trace, and outputs followed by pending bytes give the stretch back.
   */
  lemma {:induction false} PacketBoundariesLeaveNoTrace(f: Format, stretch: seq<CapturedPacket>)
    requires ValidFormat(f) && AllWellFormed(f, stretch)
    ensures var m := ByteLen(f.targetFrames, f.blockAlign);
            var s := Flat(f, stretch);
            && m > 0
            && OutputBytes(Frames(f, s)) == Cut(StretchBytes(stretch), m)
            && Bytes(Rest(s, f.targetFrames)) == Rest(StretchBytes(stretch), m)
            && Join(OutputBytes(Frames(f, s))) + Bytes(Rest(s, f.targetFrames)) == StretchBytes(stretch)
  {
    BytesOfFlat(f, stretch);
    CutBytes(f, Flat(f, stretch));
    CutIsExact(StretchBytes(stretch), ByteLen(f.targetFrames, f.blockAlign));
  }

  // ----- metadata -----

  /** Number of audio frames before packet j. */
  function Before(packets: seq<CapturedPacket>, j: nat): nat
    requires j <= |packets|
  {
    if j == 0 then 0 else Before(packets, j - 1) + packets[j - 1].frames
  }

  lemma {:induction false} BeforePrefix(packets: seq<CapturedPacket>, j: nat)
    requires |packets| > 0 && j < |packets|
    ensures Before(packets[..|packets| - 1], j) == Before(packets, j)
  {
    if j > 0 { BeforePrefix(packets, j - 1); }
  }

  /** Sample m of a stretch is the sample of the packet that spans position m. */
  lemma {:induction false} SampleOrigin(f: Format, packets: seq<CapturedPacket>, m: nat) returns (j: nat)
    requires ValidFormat(f) && AllWellFormed(f, packets) && m < |Flat(f, packets)|
    ensures j < |packets| && Before(packets, j) <= m < Before(packets, j + 1)
    ensures Flat(f, packets)[m] == SampleAt(f, packets[j], m - Before(packets, j))
  {
    var n := |packets|;
    FlatLength(f, packets);
    FlatLength(f, packets[..n - 1]);
    BeforePrefix(packets, n - 1);
    if m < |Flat(f, packets[..n - 1])| {
      j := SampleOrigin(f, packets[..n - 1], m);
      BeforePrefix(packets, j);
      if j + 1 < n { BeforePrefix(packets, j + 1); }
    } else {
      j := n - 1;
    }
  }

  lemma {:induction false} FlatLength(f: Format, packets: seq<CapturedPacket>)
    requires ValidFormat(f) && AllWellFormed(f, packets)
    ensures |Flat(f, packets)| == Before(packets, |packets|)
  {
    if |packets| > 0 {
      FlatLength(f, packets[..|packets| - 1]);
      BeforePrefix(packets, |packets| - 1);
    }
  }

  lemma {:induction false} BeforeMonotone(packets: seq<CapturedPacket>, i: nat, j: nat)
    requires i <= j <= |packets|
    ensures Before(packets, i) <= Before(packets, j)
  {
    if i < j { BeforeMonotone(packets, i, j - 1); }
  }

  /** Every sample that packet j spans is that packet's. */
  lemma {:induction false} SampleOfPacket(f: Format, packets: seq<CapturedPacket>, j: nat, m: nat)
    requires ValidFormat(f) && AllWellFormed(f, packets) && j < |packets|
    requires Before(packets, j) <= m < Before(packets, j + 1)
    ensures m < |Flat(f, packets)| && Flat(f, packets)[m] == SampleAt(f, packets[j], m - Before(packets, j))
  {
    FlatLength(f, packets);
    BeforeMonotone(packets, j + 1, |packets|);
    var i := SampleOrigin(f, packets, m);
    if i < j { BeforeMonotone(packets, i + 1, j); }
    if j < i { BeforeMonotone(packets, j + 1, i); }
  }

  /** Packet j has audio frames in output k of its stretch. */
  predicate Contributes(f: Format, packets: seq<CapturedPacket>, j: nat, k: nat)
    requires j < |packets|
  {
    && packets[j].frames > 0
    && Before(packets, j) < ByteLen(k + 1, f.targetFrames) && ByteLen(k, f.targetFrames) < Before(packets, j + 1)
  }

  lemma {:induction false} OutputIsPiece(f: Format, s: seq<Sample>, k: nat)
    requires ValidFormat(f) && k < |Frames(f, s)|
    ensures ByteLen(k + 1, f.targetFrames) == ByteLen(k, f.targetFrames) + f.targetFrames <= |s|
    ensures Frames(f, s)[k] == Merge(s[ByteLen(k, f.targetFrames)..ByteLen(k + 1, f.targetFrames)])
  {
    CutIsExact(s, f.targetFrames);
    PieceAt(s, f.targetFrames, k);
    hide Merge;
  }

  /** The packet a sample of output k comes from. */
  lemma {:induction false} Contributor(f: Format, stretch: seq<CapturedPacket>, k: nat, m: nat) returns (j: nat)
    requires ValidFormat(f) && AllWellFormed(f, stretch)
    requires m < |Flat(f, stretch)| && ByteLen(k, f.targetFrames) <= m < ByteLen(k + 1, f.targetFrames)
    ensures j < |stretch| && Contributes(f, stretch, j, k)
    ensures Flat(f, stretch)[m].silent == stretch[j].flags.silent
    ensures Flat(f, stretch)[m].timestampError == stretch[j].flags.timestampError
  {
    j := SampleOrigin(f, stretch, m);
    hide Flat, ByteLen;
  }

  /** A sample of output k that comes from a contributing packet. */
  lemma {:induction false} Contribution(f: Format, stretch: seq<CapturedPacket>, k: nat, j: nat) returns (m: nat)
    requires ValidFormat(f) && AllWellFormed(f, stretch)
    requires j < |stretch| && Contributes(f, stretch, j, k)
    ensures m < |Flat(f, stretch)| && ByteLen(k, f.targetFrames) <= m < ByteLen(k + 1, f.targetFrames)
    ensures Flat(f, stretch)[m].silent == stretch[j].flags.silent
    ensures Flat(f, stretch)[m].timestampError == stretch[j].flags.timestampError
  {
    m := Max(ByteLen(k, f.targetFrames), Before(stretch, j));
    assert ByteLen(k + 1, f.targetFrames) == ByteLen(k, f.targetFrames) + f.targetFrames;
    assert Before(stretch, j + 1) == Before(stretch, j) + stretch[j].frames;
    hide ByteLen, Flat;
    SampleOfPacket(f, stretch, j, m);
  }

  /**
   An output is silent iff every contributing packet is, and has a timestamp error iff some contributing packet has.
   */
  lemma {:induction false} OutputFlags(f: Format, stretch: seq<CapturedPacket>, k: nat)
    requires ValidFormat(f) && AllWellFormed(f, stretch) && k < |Frames(f, Flat(f, stretch))|
    ensures var flags := Frames(f, Flat(f, stretch))[k].flags;
            && (flags.silent <==> forall j :: 0 <= j < |stretch| && Contributes(f, stretch, j, k) ==>
               stretch[j].flags.silent)
            && (flags.timestampError <==>
               exists j :: 0 <= j < |stretch| && Contributes(f, stretch, j, k) && stretch[j].flags.timestampError)
  {
    hide Flat, Frames, Contributes, ByteLen, Bytes, AnyDiscontinuity;
    var s, lo, hi := Flat(f, stretch), ByteLen(k, f.targetFrames), ByteLen(k + 1, f.targetFrames);
    OutputIsPiece(f, s, k);
    var piece := s[lo..hi];
    forall j | 0 <= j < |stretch| && Contributes(f, stretch, j, k)
      ensures exists i ::
                && 0 <= i < |piece| && piece[i].silent == stretch[j].flags.silent
                && piece[i].timestampError == stretch[j].flags.timestampError
    {
      var m := Contribution(f, stretch, k, j);
      assert piece[m - lo] == s[m];
    }
    forall i | 0 <= i < |piece|
      ensures exists j :: 0 <= j < |stretch| && Contributes(f, stretch, j, k)
                && piece[i].silent == stretch[j].flags.silent
                && piece[i].timestampError == stretch[j].flags.timestampError
    {
      var j := Contributor(f, stretch, k, lo + i);
    }
  }

  /** An output's positions are those of its first audio frame. */
  lemma {:induction false} OutputPosition(f: Format, stretch: seq<CapturedPacket>, k: nat, j: nat)
    requires ValidFormat(f) && AllWellFormed(f, stretch) && k < |Frames(f, Flat(f, stretch))|
    requires j < |stretch| && Before(stretch, j) <= ByteLen(k, f.targetFrames) < Before(stretch, j + 1)
    ensures var offset := ByteLen(k, f.targetFrames) - Before(stretch, j);
            && Frames(f, Flat(f, stretch))[k].frames == f.targetFrames
            && Frames(f, Flat(f, stretch))[k].devicePosition == stretch[j].devicePosition + offset
            && Frames(f, Flat(f, stretch))[k].qpcPosition ==
               stretch[j].qpcPosition + offset * 10_000_000 / f.sampleRateHz
  {
    OutputIsPiece(f, Flat(f, stretch), k);
    SampleOfPacket(f, stretch, j, ByteLen(k, f.targetFrames));
  }

  /** Within a stretch only the first sample can be marked as a discontinuity. */
  lemma {:induction false} DiscontinuousSample(f: Format, stretch: seq<CapturedPacket>, m: nat)
    requires ValidFormat(f) && AllWellFormed(f, stretch) && m < |Flat(f, stretch)|
    requires forall j :: 0 < j < |stretch| ==> !Restarts(stretch[j])
    ensures Flat(f, stretch)[m].discontinuity <==> m == 0 && Restarts(stretch[0])
  {
    var j := SampleOrigin(f, stretch, m);
    if m == 0 && Restarts(stretch[0]) { SampleOfPacket(f, stretch, 0, 0); }
    hide Flat;
  }

  lemma {:induction false} PieceDiscontinuity(s: seq<Sample>, lo: nat, hi: nat, first: bool)
    requires lo < hi <= |s| && forall i :: lo <= i < hi ==> (s[i].discontinuity <==> i == 0 && first)
    ensures AnyDiscontinuity(s[lo..hi]) <==> lo == 0 && first
  {
    assert s[lo..hi][0] == s[lo];
  }

  /** Within a stretch only the first output is marked as a discontinuity, and only if one opened the stretch. */
  lemma {:induction false} DiscontinuityMarksFirstOutput(f: Format, stretch: seq<CapturedPacket>, k: nat)
    requires ValidFormat(f) && AllWellFormed(f, stretch) && k < |Frames(f, Flat(f, stretch))|
    requires forall j :: 0 < j < |stretch| ==> !Restarts(stretch[j])
    ensures Frames(f, Flat(f, stretch))[k].flags.dataDiscontinuity <==> k == 0 && |stretch| > 0 && Restarts(stretch[0])
  {
    var s := Flat(f, stretch);
    var lo, hi := ByteLen(k, f.targetFrames), ByteLen(k + 1, f.targetFrames);
    OutputIsPiece(f, s, k);
    FlatLength(f, stretch);
    forall i | lo <= i < hi
      ensures s[i].discontinuity <==> i == 0 && Restarts(stretch[0])
    {
      DiscontinuousSample(f, stretch, i);
    }
    PieceDiscontinuity(s, lo, hi, Restarts(stretch[0]));
    if k > 0 { ByteLenMonotone(1, k, f.targetFrames); }
    hide Flat, Frames, AnyDiscontinuity;
  }
}
