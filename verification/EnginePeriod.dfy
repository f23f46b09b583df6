/** Choosing an audio-engine period on the device's grid. */
module EnginePeriod {
  import opened Words
  import opened Wrappers
  import opened Arithmetic

  datatype EnginePeriodRange = EnginePeriodRange(
    defaultFrames: u32, fundamentalFrames: u32, minFrames: u32, maxFrames: u32)

  datatype EnginePeriodError =
    | ZeroFundamental | ZeroMinimum | MinimumExceedsMaximum | InvalidDefault | RangeNotAlignedToFundamental

  /** `is_multiple_of`, which for zero asks whether the number itself is zero. */
  predicate IsMultipleOf(n: u32, d: u32) { if d == 0 then n == 0 else n % d == 0 }

  predicate IsSupported(range: EnginePeriodRange, frames: u32) {
    frames >= range.minFrames && frames <= range.maxFrames && IsMultipleOf(frames, range.fundamentalFrames)
  }

  function New(defaultFrames: u32, fundamentalFrames: u32, minFrames: u32, maxFrames: u32)
      : Result<EnginePeriodRange, EnginePeriodError>
  {
    if fundamentalFrames == 0 then Failure(ZeroFundamental)
    else if minFrames == 0 then Failure(ZeroMinimum)
    else if minFrames > maxFrames then Failure(MinimumExceedsMaximum)
    else
      var range := EnginePeriodRange(defaultFrames, fundamentalFrames, minFrames, maxFrames);
      if !IsSupported(range, defaultFrames) then Failure(InvalidDefault)
      else if !IsMultipleOf(minFrames, fundamentalFrames) || !IsMultipleOf(maxFrames, fundamentalFrames)
        then Failure(RangeNotAlignedToFundamental)
      else Success(range)
  }

  /** The ranges `new` produces. */
  predicate Accepted(r: EnginePeriodRange) {
    New(r.defaultFrames, r.fundamentalFrames, r.minFrames, r.maxFrames) == Success(r)
  }

  function Clamp(x: u32, low: u32, high: u32): (c: u32)
    requires low <= high
  {
    if x < low then low else if x > high then high else x
  }

  function SaturatingAdd(a: u32, b: u32): u32 { if a + b > U32_MAX then U32_MAX else a + b }

  datatype Choice = Period(frames: u32) | FallBack

  /** The pair of candidates around the clamped target, and the choice `nearest_supported` makes of them. */
  function Choose(r: EnginePeriodRange, targetFrames: u32): Choice
    requires r.fundamentalFrames != 0 && r.minFrames <= r.maxFrames
  {
    var target := Clamp(targetFrames, r.minFrames, r.maxFrames);
    QuotientFloor(target, r.fundamentalFrames);
    var lower: u32 := target / r.fundamentalFrames * r.fundamentalFrames;
    var upper := SaturatingAdd(lower, r.fundamentalFrames);
    if IsSupported(r, lower) && IsSupported(r, upper)
      then Period(if target - lower <= upper - target then lower else upper)
    else if IsSupported(r, lower) then Period(lower)
    else if IsSupported(r, upper) then Period(upper)
    else FallBack
  }

  function NearestSupported(r: EnginePeriodRange, targetFrames: u32): u32
    requires r.fundamentalFrames != 0 && r.minFrames <= r.maxFrames
  {
    match Choose(r, targetFrames)
    case Period(frames) => frames
    case FallBack => r.defaultFrames
  }

  lemma {:induction false} QuotientFloor(x: nat, d: int)
    requires 0 < d
    ensures 0 <= x / d * d <= x && x - x / d * d == x % d < d
  {
    assert x == d * (x / d) + x % d;
  }

  /** Between two neighbouring multiples there is none. */
  lemma {:induction false} NoMultipleBetween(lower: int, d: int, p: int)
    requires 0 < d && lower % d == 0 && p % d == 0 && lower < p
    ensures lower + d <= p
  {
    var a, b := lower / d, p / d;
    assert lower == d * a && p == d * b;
    if b <= a { BelowMultiple(d, b, a); }
    AtLeastOnce(d, b - a);
    assert d * (b - a) == d * b - d * a;
  }

  lemma {:induction false} BelowMultiple(d: int, a: int, b: int)
    requires 0 < d && a <= b
    ensures d * a <= d * b
  {
    if a < b { AtLeastOnce(d, b - a); assert d * (b - a) == d * b - d * a; }
  }

  lemma {:induction false} NextMultiple(x: int, d: int)
    requires 0 < d && x % d == 0
    ensures (x + d) % d == 0
  {
    RemainderIs(x + d, d, x / d + 1, 0);
  }

  function Distance(a: int, b: int): int { if a <= b then b - a else a - b }

  /**
   The chosen period is a grid point, no grid point is closer to the requested target, the lower of two equally
   close ones wins, and the fall-back to the default period is never taken.
   */
  lemma {:induction false} NearestIsOptimal(r: EnginePeriodRange, targetFrames: u32)
    requires Accepted(r)
    ensures Choose(r, targetFrames).Period?
    ensures IsSupported(r, NearestSupported(r, targetFrames))
    ensures forall p: u32 :: IsSupported(r, p) ==>
              var best := NearestSupported(r, targetFrames);
              && Distance(best, targetFrames) <= Distance(p, targetFrames)
              && (Distance(best, targetFrames) == Distance(p, targetFrames) ==> best <= p)
  {
    var d := r.fundamentalFrames;
    var target := Clamp(targetFrames, r.minFrames, r.maxFrames);
    QuotientFloor(target, d);
    var lower := target / d * d;
    RemainderIs(lower, d, target / d, 0);
    NextMultiple(lower, d);
    LowerIsSupported(r, target, lower);
    forall p: u32 | IsSupported(r, p)
      ensures p <= lower || lower + d <= p
    {
      if lower < p { NoMultipleBetween(lower, d, p); }
    }
    if lower < r.maxFrames { NoMultipleBetween(lower, d, r.maxFrames); }
  }

  /** Rounding the clamped target down stays within the range because its minimum is a grid point. */
  lemma {:induction false} LowerIsSupported(r: EnginePeriodRange, target: u32, lower: int)
    requires Accepted(r) && r.minFrames <= target <= r.maxFrames
    requires lower == target - target % r.fundamentalFrames && 0 <= lower && lower % r.fundamentalFrames == 0
    ensures IsSupported(r, lower)
  {
    if lower < r.minFrames { NoMultipleBetween(lower, r.fundamentalFrames, r.minFrames); }
  }

  /** A range is accepted exactly when it is a non-empty grid from minimum to maximum that holds the default. */
  lemma {:induction false} AcceptedIsGrid(r: EnginePeriodRange)
    ensures Accepted(r) <==>
              && r.fundamentalFrames > 0 && 0 < r.minFrames <= r.maxFrames
              && IsSupported(r, r.minFrames) && IsSupported(r, r.maxFrames) && IsSupported(r, r.defaultFrames)
  {
  }
}
