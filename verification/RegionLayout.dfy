/**
 The shared-region layout. The driver computes it with checked 64-bit arithmetic and bit masks;
 the reference is the unbounded integer layout below.
 */
module RegionLayout {
  import opened Words
  import opened Wrappers
  import opened Arithmetic
  import opened Protocol

  const REGION_ALIGNMENT: u64 := 64
  const CURSOR_BYTES: int := 40
  const STAMP_BYTES: int := 8
  const SAMPLE_BYTES: int := 4

  // ----- bit operations of the alignment helper -----

  /** Bitwise AND of two non-negative integers, bit by bit. */
  function And(x: nat, y: nat): (r: nat)
    ensures r <= x && r <= y
  {
    if x == 0 || y == 0 then 0
    else 2 * And(x / 2, y / 2) + (if x % 2 == 1 && y % 2 == 1 then 1 else 0)
  }

  /** Bitwise complement of a 64-bit word. */
  function Not64(x: u64): u64 { U64_MAX - x }

  ghost predicate IsPowerOfTwo(a: int) { exists k: nat :: a == Pow2(k) }

  /** The classical test `a & (a - 1) == 0` accepts exactly the powers of two. */
  lemma {:induction false} PowerOfTwoTest(a: int)
    requires 0 < a
    ensures And(a, a - 1) == 0 <==> IsPowerOfTwo(a)
  {
    if a == 1 {
      assert a == Pow2(0);
    } else if a % 2 == 1 {
      assert And(a, a - 1) == 2 * And(a / 2, a / 2);
      AndSelf(a / 2);
      forall k: nat ensures a != Pow2(k) { if k > 0 { assert Pow2(k) == 2 * Pow2(k - 1); } }
    } else {
      assert (a - 1) / 2 == a / 2 - 1;
      assert And(a, a - 1) == 2 * And(a / 2, a / 2 - 1);
      PowerOfTwoTest(a / 2);
      if And(a, a - 1) == 0 {
        var k: nat :| a / 2 == Pow2(k);
        assert a == Pow2(k + 1);
      }
      if IsPowerOfTwo(a) {
        var k: nat :| a == Pow2(k);
        assert k > 0 && a / 2 == Pow2(k - 1);
      }
    }
  }

  lemma {:induction false} AndSelf(x: nat)
    ensures And(x, x) == x
  {
    if x > 0 { AndSelf(x / 2); }
  }

  /** AND with the n-bit mask whose k low bits are clear rounds down to a multiple of 2^k. */
  lemma {:induction false} AndClearsLowBits(x: nat, n: nat, k: nat, full: int, low: int)
    requires k <= n && full == Pow2(n) && low == Pow2(k) && x < full
    ensures low <= full && And(x, full - low) == x - x % low
    decreases n
  {
    if k == 0 {
      AndFullMask(x, n);
    } else {
      AndClearsLowBits(x / 2, n - 1, k - 1, full / 2, low / 2);
      ClearStep(x, full / 2 - low / 2, low / 2);
    }
  }

  lemma {:induction false} ClearStep(x: nat, m: nat, p: int)
    requires 1 <= p && And(x / 2, m) == x / 2 - x / 2 % p
    ensures And(x, 2 * m) == x - x % (2 * p)
  {
    AndEvenMask(x, m);
    HalfRemainder(x, p);
  }

  lemma {:induction false} AndFullMask(x: nat, n: nat)
    requires x < Pow2(n)
    ensures And(x, Pow2(n) - 1) == x
  {
    if x > 0 {
      AndFullMask(x / 2, n - 1);
      assert (Pow2(n) - 1) / 2 == Pow2(n - 1) - 1;
    }
  }

  lemma {:induction false} AndEvenMask(x: nat, m: nat)
    ensures And(x, 2 * m) == 2 * And(x / 2, m)
  {
    assert (2 * m) / 2 == m && (2 * m) % 2 == 0;
  }

  lemma {:induction false} HalfRemainder(x: nat, p: int)
    requires 1 <= p
    ensures x % (2 * p) == 2 * (x / 2 % p) + x % 2
  {
    var h := x / 2;
    var q, r := h / p, h % p;
    assert x == 2 * h + x % 2;
    assert h == p * q + r;
    var rest := 2 * r + x % 2;
    assert x == (2 * p) * q + rest;
    RemainderIs(x, 2 * p, q, rest);
  }

  // ----- CheckedAlignUp -----

  function CheckedAlignUp(value: u64, alignment: u64): Option<u64> {
    if alignment == 0 || And(alignment, alignment - 1) != 0 then None
    else
      var mask := alignment - 1;
      if value > U64_MAX - mask then None
      else Some(And(value + mask, Not64(mask)))
  }

  ghost predicate LeastAligned(value: int, alignment: int, r: int)
    requires 0 < alignment
  {
    value <= r && r % alignment == 0 && forall w: int :: value <= w && w % alignment == 0 ==> r <= w
  }

  function RoundUp(value: int, alignment: int): int
    requires 0 < alignment
  {
    value + alignment - 1 - (value + alignment - 1) % alignment
  }

  lemma {:induction false} RoundUpIsLeast(value: int, alignment: int)
    requires 0 < alignment
    ensures LeastAligned(value, alignment, RoundUp(value, alignment))
  {
    var x := value + alignment - 1;
    var q := x / alignment;
    var r := RoundUp(value, alignment);
    assert r == alignment * q + 0;
    RemainderIs(r, alignment, q, 0);
    forall w: int | value <= w && w % alignment == 0 ensures r <= w {
      var v := w / alignment;
      assert w == alignment * v;
      MultipleOrder(alignment, q, v);
    }
  }

  /**
   The masked computation succeeds exactly when the alignment is a power of two and the least aligned
   value not below the input is a 64-bit word, and then it is that value.
   */
  lemma {:induction false} AlignUpIsLeast(value: u64, alignment: u64)
    ensures CheckedAlignUp(value, alignment).Some? ==>
              IsPowerOfTwo(alignment) && LeastAligned(value, alignment, CheckedAlignUp(value, alignment).value)
    ensures CheckedAlignUp(value, alignment).Some? <==>
              alignment != 0 && IsPowerOfTwo(alignment) && RoundUp(value, alignment) <= U64_MAX
  {
    if alignment != 0 {
      PowerOfTwoTest(alignment);
      if IsPowerOfTwo(alignment) {
        var k: nat :| alignment == Pow2(k);
        ExponentBelow64(k);
        Pow2Of64();
        Pow2Monotone(k, 64);
        RoundUpIsLeast(value, alignment);
        if value <= U64_MAX - (alignment - 1) {
          AndClearsLowBits(value + alignment - 1, 64, k, Pow2(64), alignment);
          assert Not64(alignment - 1) == Pow2(64) - Pow2(k);
        } else {
          RoundsPast(value, alignment);
        }
      }
    }
  }

  lemma {:induction false} ExponentBelow64(k: nat)
    requires Pow2(k) <= U64_MAX
    ensures k < 64
  {
    if 64 <= k { Pow2Monotone(64, k); Pow2Of64(); }
  }

  /** Above the last aligned word there is no aligned word left. */
  lemma {:induction false} RoundsPast(value: u64, alignment: u64)
    requires 0 < alignment && TWO_64 % alignment == 0 && value > U64_MAX - (alignment - 1)
    ensures RoundUp(value, alignment) == TWO_64
  {
    var x := value + alignment - 1;
    var q := TWO_64 / alignment;
    assert TWO_64 == alignment * q;
    RemainderIs(x, alignment, q, x - TWO_64);
  }

  // ----- PlanSharedRegionLayout -----

  datatype Layout = Layout(
    cursorOffset: u64, stampsOffset: u64, stampsBytes: u64, audioOffset: u64,
    frameBytes: u64, ringBytes: u64, totalBytes: u64)

  datatype RegionStatus = InvalidHeader | SizeOverflow

  function PlanLayout(h: Header): Result<Layout, RegionStatus> {
    if !ValidHeader(h) then Failure(InvalidHeader)
    else match CheckedAlignUp(HEADER_BYTES, REGION_ALIGNMENT)
      case None => Failure(SizeOverflow)
      case Some(cursorOffset) =>
        if cursorOffset > U64_MAX - CURSOR_BYTES then Failure(SizeOverflow)
        else match CheckedAlignUp(cursorOffset + CURSOR_BYTES, REGION_ALIGNMENT)
          case None => Failure(SizeOverflow)
          case Some(stampsOffset) =>
            var capacity: u64 := h.capacityFrames;
            if capacity > U64_MAX / STAMP_BYTES then Failure(SizeOverflow)
            else
              var stampsBytes: u64 := capacity * STAMP_BYTES;
              if stampsOffset > U64_MAX - stampsBytes then Failure(SizeOverflow)
              else match CheckedAlignUp(stampsOffset + stampsBytes, REGION_ALIGNMENT)
                case None => Failure(SizeOverflow)
                case Some(audioOffset) => PlanAudio(h, cursorOffset, stampsOffset, stampsBytes, audioOffset)
  }

  function PlanAudio(h: Header, cursorOffset: u64, stampsOffset: u64, stampsBytes: u64, audioOffset: u64)
      : Result<Layout, RegionStatus>
  {
    var capacity: u64 := h.capacityFrames;
    var samples: u64 := h.samplesPerFrame;
    if samples > U64_MAX / SAMPLE_BYTES then Failure(SizeOverflow)
    else
      var frameBytes: u64 := samples * SAMPLE_BYTES;
      if frameBytes != 0 && capacity > U64_MAX / frameBytes then Failure(SizeOverflow)
      else
        assert 0 <= capacity * frameBytes <= U64_MAX by { QuotientBound(capacity, frameBytes, U64_MAX); }
        var ringBytes: u64 := capacity * frameBytes;
        if audioOffset > U64_MAX - ringBytes then Failure(SizeOverflow)
        else Success(Layout(cursorOffset, stampsOffset, stampsBytes, audioOffset, frameBytes, ringBytes,
          audioOffset + ringBytes))
  }

  /** The same layout over unbounded integers. */
  ghost function IdealAudioOffset(h: Header): int { RoundUp(128 + STAMP_BYTES * h.capacityFrames, REGION_ALIGNMENT) }

  ghost function IdealTotal(h: Header): int {
    IdealAudioOffset(h) + h.capacityFrames * (SAMPLE_BYTES * h.samplesPerFrame)
  }

  lemma {:induction false} Align64(value: u64)
    ensures CheckedAlignUp(value, 64).Some? <==> RoundUp(value, 64) <= U64_MAX
    ensures CheckedAlignUp(value, 64).Some? ==> CheckedAlignUp(value, 64).value == RoundUp(value, 64)
  {
    assert 64 == Pow2(6) && IsPowerOfTwo(64);
    AlignUpIsLeast(value, 64);
    RoundUpIsLeast(value, 64);
  }

  /** For a valid header planning succeeds exactly when the ideal layout fits 64 bits, and equals it. */
  lemma {:induction false} LayoutExact(h: Header)
    requires ValidHeader(h)
    ensures PlanLayout(h).Success? <==> IdealTotal(h) <= U64_MAX
    ensures PlanLayout(h).Success? ==>
              var l := PlanLayout(h).value;
              && l.cursorOffset == 64 && l.stampsOffset == 128 && l.stampsBytes == STAMP_BYTES * h.capacityFrames
              && l.audioOffset == IdealAudioOffset(h) && l.frameBytes == SAMPLE_BYTES * h.samplesPerFrame
              && l.ringBytes == h.capacityFrames * l.frameBytes && l.totalBytes == IdealTotal(h)
  {
    Align64(HEADER_BYTES);
    Align64(104);
    Align64(128 + STAMP_BYTES * h.capacityFrames);
    RoundUpIsLeast(128 + STAMP_BYTES * h.capacityFrames, 64);
    QuotientBound(h.capacityFrames, SAMPLE_BYTES * h.samplesPerFrame, U64_MAX);
  }

  /** Header, cursors, stamps and audio are aligned, in order, disjoint and in bounds, and so is every slot. */
  lemma {:induction false} LayoutAreasDisjoint(h: Header, l: Layout)
    requires PlanLayout(h) == Success(l)
    ensures l.cursorOffset % 64 == l.stampsOffset % 64 == l.audioOffset % 64 == 0
    ensures HEADER_BYTES <= l.cursorOffset && l.cursorOffset + CURSOR_BYTES <= l.stampsOffset
    ensures l.stampsOffset + l.stampsBytes <= l.audioOffset && l.audioOffset + l.ringBytes == l.totalBytes
    ensures forall slot :: 0 <= slot < h.capacityFrames ==>
              StampRange(l, slot).0 >= l.stampsOffset && StampRange(l, slot).1 <= l.stampsOffset + l.stampsBytes
    ensures forall slot :: 0 <= slot < h.capacityFrames ==>
              FrameRange(l, slot).0 >= l.audioOffset && FrameRange(l, slot).1 <= l.totalBytes
    ensures forall a, b {:trigger FrameRange(l, a), FrameRange(l, b)} ::
              0 <= a < b < h.capacityFrames ==>
                FrameRange(l, a).1 <= FrameRange(l, b).0 && StampRange(l, a).1 <= StampRange(l, b).0
  {
    LayoutExact(h);
    RoundUpIsLeast(128 + STAMP_BYTES * h.capacityFrames, 64);
    forall slot | 0 <= slot < h.capacityFrames
      ensures FrameRange(l, slot).0 >= l.audioOffset && FrameRange(l, slot).1 <= l.totalBytes
    {
      SlotFits(slot, h.capacityFrames, l.frameBytes);
    }
    forall a, b {:trigger FrameRange(l, a), FrameRange(l, b)} | 0 <= a < b < h.capacityFrames
      ensures FrameRange(l, a).1 <= FrameRange(l, b).0
    {
      SlotFits(a, b, l.frameBytes);
    }
  }

  function StampRange(l: Layout, slot: int): (int, int) {
    (l.stampsOffset + slot * STAMP_BYTES, l.stampsOffset + (slot + 1) * STAMP_BYTES)
  }

  function FrameRange(l: Layout, slot: int): (int, int) {
    (l.audioOffset + slot * l.frameBytes, l.audioOffset + slot * l.frameBytes + l.frameBytes)
  }
}
