/** Positions and states of the capture stream: the values, the in-place record, and their closed form. */
module StreamContract {
  import opened Words
  import opened Arithmetic

  datatype StreamState = Stop | Acquire | Pause | Run

  datatype StreamStatus =
    | StreamOk | InvalidBufferBytes | InvalidBlockAlign | InvalidNotificationBytes
    | InvalidTransition | InvalidState | InvalidAdvanceBytes | PositionOverflow

  datatype Positions = Positions(
    state: StreamState, buffer: u64, blockAlign: u64, notification: u64,
    cyclic: u64, linear: u64, accumulator: u64, due: u64)

  const ZERO_POSITIONS := Positions(Stop, 0, 0, 0, 0, 0, 0, 0)

  function Rank(s: StreamState): int {
    match s
    case Stop => 0
    case Acquire => 1
    case Pause => 2
    case Run => 3
  }

  predicate AllowedTransition(from: StreamState, to: StreamState) {
    from == to || Rank(from) + 1 == Rank(to) || Rank(to) + 1 == Rank(from)
  }

  /** The transitions allowed are to the same state and between neighbours in Stop, Acquire, Pause, Run. */
  lemma {:induction false} TransitionTable(from: StreamState, to: StreamState)
    ensures AllowedTransition(from, to) <==>
              match from
              case Stop => to == Stop || to == Acquire
              case Acquire => to == Stop || to == Acquire || to == Pause
              case Pause => to == Acquire || to == Pause || to == Run
              case Run => to == Pause || to == Run
  {
  }

  function GeometryStatus(buffer: u64, blockAlign: u64, notification: u64): StreamStatus {
    if blockAlign == 0 then InvalidBlockAlign
    else if buffer == 0 || buffer % blockAlign != 0 then InvalidBufferBytes
    else if notification == 0 || notification > buffer || notification % blockAlign != 0 then InvalidNotificationBytes
    else StreamOk
  }

  function Initialized(buffer: u64, blockAlign: u64, notification: u64): Positions {
    Positions(Stop, buffer, blockAlign, notification, 0, 0, 0, 0)
  }

  function WithState(p: Positions, next: StreamState): Positions {
    var q := p.(state := next);
    if next.Stop? then q.(cyclic := 0, linear := 0, accumulator := 0, due := 0) else q
  }

  /** The advance divides by the block alignment and the notification size; it is defined where those are not zero. */
  predicate AdvanceDefined(p: Positions, bytes: u64) {
    || (p.blockAlign != 0 && p.notification != 0) || !p.state.Run? || bytes == 0
    || (p.blockAlign != 0 && RefusedBefore(p, bytes))
  }

  /** Refused before the notification size is divided by. */
  predicate RefusedBefore(p: Positions, bytes: u64)
    requires p.blockAlign != 0
  {
    bytes % p.blockAlign != 0 || bytes > p.buffer || U64_MAX - p.linear < bytes || U64_MAX - p.accumulator < bytes
  }

  /** `AdvanceWaveRtCapturePosition`; its one unchecked addition wraps. */
  function Advance(p: Positions, bytes: u64): (r: (StreamStatus, Positions, u64))
    requires AdvanceDefined(p, bytes)
  {
    if !p.state.Run? then (InvalidState, p, 0)
    else if bytes == 0 || bytes % p.blockAlign != 0 || bytes > p.buffer then (InvalidAdvanceBytes, p, 0)
    else if U64_MAX - p.linear < bytes || U64_MAX - p.accumulator < bytes then (PositionOverflow, p, 0)
    else
      var accumulator := p.accumulator + bytes;
      QuotientAtMost(accumulator, p.notification);
      var due := accumulator / p.notification;
      if U64_MAX - p.due < due then (PositionOverflow, p, 0)
      else
        (StreamOk,
         p.(linear := p.linear + bytes, cyclic := Wrap64(p.cyclic + bytes) % p.buffer,
            accumulator := accumulator % p.notification, due := p.due + due),
         due)
  }

  /** Why a buffer geometry is refused: a zero alignment first, then the buffer size, then the notification size. */
  lemma {:induction false} GeometryRefusals(buffer: u64, blockAlign: u64, notification: u64)
    ensures var status := GeometryStatus(buffer, blockAlign, notification);
            && (status == InvalidBlockAlign <==> blockAlign == 0)
            && (status == InvalidBufferBytes <==> blockAlign != 0 && !WholeBlocks(buffer, blockAlign))
            && (status == InvalidNotificationBytes <==>
                  && blockAlign != 0 && WholeBlocks(buffer, blockAlign)
                  && !(WholeBlocks(notification, blockAlign) && notification <= buffer))
            && (status == StreamOk <==>
                  && blockAlign != 0 && WholeBlocks(buffer, blockAlign)
                  && WholeBlocks(notification, blockAlign) && notification <= buffer)
  {
    if blockAlign != 0 {
      MultipleIff(buffer, blockAlign);
      MultipleIff(notification, blockAlign);
    }
    hide WholeBlocks;
  }

  /** One block or more, and no part of one. */
  ghost predicate WholeBlocks(bytes: u64, blockAlign: u64) { exists n: nat :: 0 < n && bytes == n * blockAlign }

  lemma {:induction false} MultipleIff(bytes: u64, d: u64)
    requires 0 < d
    ensures WholeBlocks(bytes, d) <==> bytes != 0 && bytes % d == 0
  {
    if WholeBlocks(bytes, d) {
      var n: nat :| 0 < n && bytes == n * d;
      RemainderIs(bytes, d, n, 0);
      assert 0 < n * d by { MultipleOrder(d, 0, n); }
    }
    if bytes != 0 && bytes % d == 0 {
      var n := bytes / d;
      assert bytes == n * d && 0 < n;
    }
  }

  /**
   What an advance answers. Outside RUN it is refused, and in RUN unless it is a whole number of blocks no larger than
   the buffer. Otherwise it moves both positions by its bytes and counts the notifications passed, unless a position or
   the count would overflow. A refused advance changes nothing.
   */
  lemma {:induction false} AdvanceAnswers(p: Positions, bytes: u64)
    requires p.buffer != 0 && p.blockAlign != 0 && p.notification != 0
    ensures var (status, q, due) := Advance(p, bytes);
            var passed := (p.accumulator + bytes) / p.notification;
            && (status == InvalidState <==> !p.state.Run?)
            && (status == InvalidAdvanceBytes <==>
               p.state.Run? && !(WholeBlocks(bytes, p.blockAlign) && bytes <= p.buffer))
            && (status == PositionOverflow <==>
                  && p.state.Run? && WholeBlocks(bytes, p.blockAlign) && bytes <= p.buffer
                  && (p.linear + bytes > U64_MAX || p.accumulator + bytes > U64_MAX || p.due + passed > U64_MAX))
            && (status == StreamOk || status == InvalidState || status == InvalidAdvanceBytes ||
               status == PositionOverflow)
            && (status != StreamOk ==> q == p && due == 0)
            && (status == StreamOk ==>
                  && q.linear == p.linear + bytes && q.due == p.due + due && due == passed
                  && q.state == p.state && q.buffer == p.buffer && q.blockAlign == p.blockAlign
                  && q.notification == p.notification
                  && q.accumulator == p.accumulator + bytes - passed * p.notification
                  && 0 <= q.accumulator < p.notification)
  {
    MultipleIff(bytes, p.blockAlign);
    QuotientAtMost(p.accumulator + bytes, p.notification);
    assert p.accumulator + bytes ==
           (p.accumulator + bytes) / p.notification * p.notification + (p.accumulator + bytes) % p.notification;
    hide WholeBlocks;
  }

  // ----- closed form -----

  /** All positions are functions of the linear one. */
  predicate ClosedForm(p: Positions) {
    && p.buffer != 0 && p.blockAlign != 0 && p.notification != 0
    && p.cyclic == p.linear % p.buffer && p.accumulator == p.linear % p.notification
    && p.due == p.linear / p.notification
  }

  /** Adding to a reduced number and reducing again is reducing the sum. */
  lemma {:induction false} ReducedSum(x: nat, bytes: nat, d: int)
    requires 0 < d
    ensures x % d <= x && (x % d + bytes) % d == (x + bytes) % d
    ensures x / d + (x % d + bytes) / d == (x + bytes) / d
  {
    var q, r := x / d, x % d;
    var q', r' := (r + bytes) / d, (r + bytes) % d;
    assert x == d * q + r && r + bytes == d * q' + r';
    assert x + bytes == d * (q + q') + r' by { assert d * (q + q') == d * q + d * q'; }
    RemainderIs(x + bytes, d, q + q', r');
    assert 0 <= d * q by { assert 0 <= q; }
  }

  /** An advance keeps the closed form, overflows exactly when the linear position would, and fails without effect. */
  lemma {:induction false} AdvanceKeepsClosedForm(p: Positions, bytes: u64)
    requires ClosedForm(p)
    ensures var (status, q, due) := Advance(p, bytes);
            && ClosedForm(q)
            && (status != StreamOk ==> q == p && due == 0)
            && (status == StreamOk ==>
               q == p.(linear := p.linear + bytes, cyclic := q.cyclic, accumulator := q.accumulator,
               due := p.due + due))
    ensures p.state.Run? && bytes != 0 && bytes % p.blockAlign == 0 && bytes <= p.buffer ==>
              (Advance(p, bytes).0 == PositionOverflow <==> p.linear + bytes > U64_MAX)
              && (Advance(p, bytes).0 == StreamOk <==> p.linear + bytes <= U64_MAX)
    ensures p.linear + bytes <= U64_MAX ==> p.cyclic + bytes <= U64_MAX
  {
    hide RefusedBefore;
    ReducedSum(p.linear, bytes, p.buffer);
    ReducedSum(p.linear, bytes, p.notification);
    QuotientAtMost(p.linear + bytes, p.notification);
    QuotientAtMost(p.accumulator + bytes, p.notification);
  }

  // ----- runs of operations -----

  datatype Operation = SetTo(next: StreamState) | AdvanceBy(bytes: u64)

  function Perform(p: Positions, op: Operation): Positions
    requires p.buffer != 0 && p.blockAlign != 0 && p.notification != 0
  {
    match op
    case SetTo(next) => if AllowedTransition(p.state, next) then WithState(p, next) else p
    case AdvanceBy(bytes) => Advance(p, bytes).1
  }

  /** Bytes moved by successful advances since the positions were last zeroed. */
  ghost function Moved(p: Positions, ops: seq<Operation>): nat
    requires p.buffer != 0 && p.blockAlign != 0 && p.notification != 0
  {
    if ops == [] then 0
    else
      var before := PerformAll(p, ops[..|ops| - 1]);
      var sofar := Moved(p, ops[..|ops| - 1]);
      match ops[|ops| - 1]
      case SetTo(next) => if AllowedTransition(before.state, next) && next.Stop? then 0 else sofar
      case AdvanceBy(bytes) => if Advance(before, bytes).0 == StreamOk then sofar + bytes else sofar
  }

  ghost function PerformAll(p: Positions, ops: seq<Operation>): (q: Positions)
    requires p.buffer != 0 && p.blockAlign != 0 && p.notification != 0
    ensures q.buffer == p.buffer && q.blockAlign == p.blockAlign && q.notification == p.notification
  {
    if ops == [] then p else Perform(PerformAll(p, ops[..|ops| - 1]), ops[|ops| - 1])
  }

  /** After any run the linear position is the sum of the successful advances, and the others follow from it. */
  lemma {:induction false} PositionsClosedForm(buffer: u64, blockAlign: u64, notification: u64, ops: seq<Operation>)
    requires GeometryStatus(buffer, blockAlign, notification) == StreamOk
    ensures var p := Initialized(buffer, blockAlign, notification);
            var q := PerformAll(p, ops);
            && q.linear == Moved(p, ops) && q.cyclic == Moved(p, ops) % buffer
            && q.accumulator == Moved(p, ops) % notification && q.due == Moved(p, ops) / notification
  {
    var p := Initialized(buffer, blockAlign, notification);
    if ops == [] {
      assert PerformAll(p, ops) == p;
      ZeroDivides(buffer);
      ZeroDivides(notification);
    } else {
      PositionsClosedForm(buffer, blockAlign, notification, ops[..|ops| - 1]);
      ZeroDivides(buffer);
      ZeroDivides(notification);
      var before := PerformAll(p, ops[..|ops| - 1]);
      if ops[|ops| - 1].AdvanceBy? { AdvanceKeepsClosedForm(before, ops[|ops| - 1].bytes); }
    }
  }

  lemma {:induction false} ZeroDivides(d: int)
    requires 0 < d
    ensures 0 % d == 0 && 0 / d == 0
  {
  }

  /** The way down to Stop, one step at a time. */
  const DOWN: seq<StreamState> := [Pause, Acquire, Stop]

  /**
   A stream can always be brought down: from any state the walk to Stop is allowed and ends with all positions zero.
   */
  lemma {:induction false} WalkDown(p: Positions, n: nat)
    requires p.buffer != 0 && p.blockAlign != 0 && p.notification != 0 && n <= 3
    requires p.state == [Run, Pause, Acquire, Stop][n]
    ensures PerformAll(p, seq(3 - n, i requires 0 <= i < 3 - n => SetTo(DOWN[n + i])))
         == if n == 3 then p else Initialized(p.buffer, p.blockAlign, p.notification)
  {
    var ops := seq(3 - n, i requires 0 <= i < 3 - n => SetTo(DOWN[n + i]));
    if n == 2 {
      assert ops[..0] == [];
    } else if n == 1 {
      assert ops[..1][..0] == [];
      assert PerformAll(p, ops[..1]) == WithState(p, Acquire);
    } else if n == 0 {
      assert ops[..2][..1] == ops[..1] && ops[..1][..0] == [];
      assert PerformAll(p, ops[..1]) == WithState(p, Pause);
      assert PerformAll(p, ops[..2]) == WithState(p, Acquire);
    }
  }

  /** And from Stop it can be brought up to Run, with nothing moved. */
  lemma {:induction false} WalkUp(p: Positions)
    requires p.buffer != 0 && p.blockAlign != 0 && p.notification != 0 && p.state.Stop?
    ensures PerformAll(p, [SetTo(Acquire), SetTo(Pause), SetTo(Run)]) == p.(state := Run)
  {
    var ops := [SetTo(Acquire), SetTo(Pause), SetTo(Run)];
    assert ops[..2][..1] == ops[..1] && ops[..1][..0] == [];
    assert PerformAll(p, ops[..1]) == WithState(p, Acquire);
    assert PerformAll(p, ops[..2]) == WithState(p, Pause);
  }

  // ----- the record the driver updates in place -----

  class StreamRuntime {
    var state: StreamState
    var buffer: u64
    var blockAlign: u64
    var notification: u64
    var cyclic: u64
    var linear: u64
    var accumulator: u64
    var due: u64

    function View(): Positions
      reads this
    {
      Positions(state, buffer, blockAlign, notification, cyclic, linear, accumulator, due)
    }

    constructor ()
      ensures View() == ZERO_POSITIONS
    {
      state, buffer, blockAlign, notification := Stop, 0, 0, 0;
      cyclic, linear, accumulator, due := 0, 0, 0, 0;
    }

    method Assign(p: Positions)
      modifies this
      ensures View() == p
    {
      state, buffer, blockAlign, notification := p.state, p.buffer, p.blockAlign, p.notification;
      cyclic, linear, accumulator, due := p.cyclic, p.linear, p.accumulator, p.due;
    }

    /** `InitializeWaveRtStreamRuntime`. */
    method Initialize(bufferBytes: u64, alignBytes: u64, notificationBytes: u64) returns (status: StreamStatus)
      modifies this
      ensures status == GeometryStatus(bufferBytes, alignBytes, notificationBytes)
      ensures View() == if status == StreamOk then Initialized(bufferBytes, alignBytes, notificationBytes)
              else old(View())
      ensures status == StreamOk ==> ClosedForm(View())
    {
      status := GeometryStatus(bufferBytes, alignBytes, notificationBytes);
      if status == StreamOk {
        Assign(Initialized(bufferBytes, alignBytes, notificationBytes));
        ZeroDivides(bufferBytes);
        ZeroDivides(notificationBytes);
      }
    }

    /** `SetWaveRtStreamState`. */
    method SetState(next: StreamState) returns (status: StreamStatus)
      modifies this
      ensures status == StreamOk || status == InvalidTransition
      ensures status == StreamOk <==>
                match old(state)
                case Stop => next == Stop || next == Acquire
                case Acquire => next == Stop || next == Acquire || next == Pause
                case Pause => next == Acquire || next == Pause || next == Run
                case Run => next == Pause || next == Run
      ensures status == if AllowedTransition(old(state), next) then StreamOk else InvalidTransition
      ensures View() == if status == StreamOk then WithState(old(View()), next) else old(View())
      ensures old(ClosedForm(View())) ==> ClosedForm(View())
    {
      if !AllowedTransition(state, next) { return InvalidTransition; }
      state := next;
      if next.Stop? {
        cyclic, linear, accumulator, due := 0, 0, 0, 0;
        if buffer != 0 { ZeroDivides(buffer); }
        if notification != 0 { ZeroDivides(notification); }
      }
      status := StreamOk;
    }

    /** `AdvanceWaveRtCapturePosition`. */
    method AdvancePosition(bytes: u64) returns (status: StreamStatus, notificationsDue: u64)
      requires AdvanceDefined(View(), bytes)
      modifies this
      ensures (status, View(), notificationsDue) == Advance(old(View()), bytes)
      ensures old(ClosedForm(View())) ==> ClosedForm(View())
    {
      if ClosedForm(View()) { AdvanceKeepsClosedForm(View(), bytes); }
      notificationsDue := 0;
      if !state.Run? { return InvalidState, 0; }
      if bytes == 0 || bytes % blockAlign != 0 || bytes > buffer { return InvalidAdvanceBytes, 0; }
      if U64_MAX - linear < bytes || U64_MAX - accumulator < bytes { return PositionOverflow, 0; }
      var nextAccumulator := accumulator + bytes;
      QuotientAtMost(nextAccumulator, notification);
      var dueNow := nextAccumulator / notification;
      if U64_MAX - due < dueNow { return PositionOverflow, 0; }
      linear := linear + bytes;
      cyclic := Wrap64(cyclic + bytes) % buffer;
      accumulator := nextAccumulator % notification;
      due := due + dueNow;
      status, notificationsDue := StreamOk, dueNow;
    }
  }
}
