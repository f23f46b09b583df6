/** The stream controller: device opening, bounded recovery with backoff, and bypass. */
module StreamControl {
  import opened Words
  import opened Wrappers
  import opened Arithmetic

  datatype StreamState = Stopped | Opening | Running | Recovering | Bypassed | Failed

  datatype StreamFault = DeviceInvalidated | DeviceUnavailable | Backend | Processing

  datatype RecoveryPolicy = RecoveryPolicy(maxReopenFailures: u8, initialBackoffMs: u64, maxBackoffMs: u64)

  datatype PolicyError = ZeroAttempts | ZeroInitialBackoff | MaxBackoffBelowInitial

  datatype StreamEvent =
    | StartRequested
    | OpenSucceeded
    | OpenFailed(fault: StreamFault, retryable: bool)
    | DeviceLost
    | StreamFailed(fault: StreamFault, retryable: bool)
    | RetryTimerElapsed
    | ProcessingFailed
    | ProcessingRecovered
    | StopRequested

  datatype StreamAction =
    | NoAction | OpenDevice | StopDevice | EnterBypass | ExitBypass | ScheduleRetry(delayMs: u64)
    | SurfaceFailure(fault: StreamFault)

  datatype StreamTransition = StreamTransition(
    previous: StreamState, current: StreamState, action: StreamAction, reopenFailures: u8)

  /** `RecoveryPolicy::new`. */
  function NewPolicy(maxReopenFailures: u8, initialBackoffMs: u64, maxBackoffMs: u64)
      : Result<RecoveryPolicy, PolicyError>
  {
    if maxReopenFailures == 0 then Failure(ZeroAttempts)
    else if initialBackoffMs == 0 then Failure(ZeroInitialBackoff)
    else if maxBackoffMs < initialBackoffMs then Failure(MaxBackoffBelowInitial)
    else Success(RecoveryPolicy(maxReopenFailures, initialBackoffMs, maxBackoffMs))
  }

  /** The policies `new` accepts. */
  predicate ValidPolicy(p: RecoveryPolicy) {
    NewPolicy(p.maxReopenFailures, p.initialBackoffMs, p.maxBackoffMs) == Success(p)
  }

  /** A policy is refused for no attempts, no initial backoff, or a cap below it, in this order. */
  lemma {:induction false} PolicyTable(attempts: u8, initial: u64, cap: u64)
    ensures var r := NewPolicy(attempts, initial, cap);
            && (r.Success? <==> attempts != 0 && initial != 0 && initial <= cap)
            && (r.Success? ==> r.value == RecoveryPolicy(attempts, initial, cap))
            && (r == Failure(ZeroAttempts) <==> attempts == 0)
            && (r == Failure(ZeroInitialBackoff) <==> attempts != 0 && initial == 0)
  {
  }

  function SaturatingMul(a: u64, b: u64): (r: u64)
  {
    if 0 <= a * b <= U64_MAX then a * b else U64_MAX
  }

  function DelayForFailure(p: RecoveryPolicy, failureCount: u8): u64 {
    var shift := Min(Max(failureCount - 1, 0), 20);
    Pow2Monotone(shift, 20);
    assert Pow2(20) == 0x10_0000 by { assert Pow2(10) == 1024; Pow2Adds(10, 10); }
    Min(SaturatingMul(p.initialBackoffMs, Pow2(shift)), p.maxBackoffMs)
  }

  /** The delay is the initial one doubled per failure up to 20 times and capped; saturation never shows. */
  lemma {:induction false} DelayIsCappedDoubling(p: RecoveryPolicy, n: u8)
    requires ValidPolicy(p)
    ensures DelayForFailure(p, n) ==
            Min(p.initialBackoffMs * Pow2(if n == 0 then 0 else Min(n - 1, 20)), p.maxBackoffMs)
    ensures p.initialBackoffMs <= DelayForFailure(p, n) <= p.maxBackoffMs
    ensures n <= 1 ==> DelayForFailure(p, n) == p.initialBackoffMs
  {
    var shift := if n == 0 then 0 else Min(n - 1, 20);
    Pow2Monotone(0, shift);
    BoundedProduct(p.initialBackoffMs, 1, p.initialBackoffMs, Pow2(shift));
  }

  /** Delays never shrink as failures accumulate. */
  lemma {:induction false} DelaysGrow(p: RecoveryPolicy, m: u8, n: u8)
    requires ValidPolicy(p) && m <= n
    ensures DelayForFailure(p, m) <= DelayForFailure(p, n)
  {
    DelayIsCappedDoubling(p, m);
    DelayIsCappedDoubling(p, n);
    var a: nat, b: nat := if m == 0 then 0 else Min(m - 1, 20), if n == 0 then 0 else Min(n - 1, 20);
    Pow2Monotone(a, b);
    BoundedProduct(p.initialBackoffMs, Pow2(a), p.initialBackoffMs, Pow2(b));
  }

  // ----- the controller as a value -----

  datatype Controller = Controller(state: StreamState, reopenFailures: u8)

  const INITIAL_CONTROLLER := Controller(Stopped, 0)

  function Apply(p: RecoveryPolicy, c: Controller, event: StreamEvent): (Controller, StreamAction) {
    var live := c.state.Running? || c.state.Bypassed?;
    match event
    case StartRequested => if c.state.Stopped? then (Controller(Opening, 0), OpenDevice) else (c, NoAction)
    case OpenSucceeded => if c.state.Opening? then (Controller(Running, 0), NoAction) else (c, NoAction)
    case OpenFailed(fault, retryable) =>
      if !c.state.Opening? then (c, NoAction)
      else if !retryable then (c.(state := Failed), SurfaceFailure(fault))
      else
        var failures: u8 := Min(c.reopenFailures + 1, 255);
        if failures >= p.maxReopenFailures then (Controller(Failed, failures), SurfaceFailure(fault))
        else (Controller(Recovering, failures), ScheduleRetry(DelayForFailure(p, failures)))
    case DeviceLost => if live then (Controller(Recovering, 0), ScheduleRetry(p.initialBackoffMs)) else (c, NoAction)
    case StreamFailed(fault, retryable) =>
      if !live then (c, NoAction)
      else if retryable then (Controller(Recovering, 0), ScheduleRetry(p.initialBackoffMs))
      else (Controller(Failed, 0), SurfaceFailure(fault))
    case RetryTimerElapsed => if c.state.Recovering? then (c.(state := Opening), OpenDevice) else (c, NoAction)
    case ProcessingFailed => if c.state.Running? then (c.(state := Bypassed), EnterBypass) else (c, NoAction)
    case ProcessingRecovered => if c.state.Bypassed? then (c.(state := Running), ExitBypass) else (c, NoAction)
    case StopRequested => if !c.state.Stopped? then (Controller(Stopped, 0), StopDevice) else (c, NoAction)
  }

  function TransitionOf(p: RecoveryPolicy, c: Controller, event: StreamEvent): StreamTransition {
    var (after, action) := Apply(p, c, event);
    StreamTransition(c.state, after.state, action, after.reopenFailures)
  }

  // ----- what each order means -----

  predicate Live(s: StreamState) { s.Running? || s.Bypassed? }

  /** A failed open after which the controller gives up: the fault is permanent, or it is the last permitted failure. */
  predicate GivesUp(p: RecoveryPolicy, c: Controller, e: StreamEvent)
    requires e.OpenFailed?
  {
    !e.retryable || c.reopenFailures + 1 >= p.maxReopenFailures
  }

  /** Every order, by when exactly it is given and where it leaves the controller. */
  lemma {:induction false} OrdersExactly(p: RecoveryPolicy, c: Controller, e: StreamEvent)
    ensures var (u, order) := Apply(p, c, e);
            && (order.OpenDevice? <==>
                  (c.state.Stopped? && e.StartRequested?) || (c.state.Recovering? && e.RetryTimerElapsed?))
            && (order.OpenDevice? ==> u == Controller(Opening, if c.state.Stopped? then 0 else c.reopenFailures))
            && (order.StopDevice? <==> e.StopRequested? && !c.state.Stopped?)
            && (order.StopDevice? ==> u == Controller(Stopped, 0))
            && (order.EnterBypass? <==> c.state.Running? && e.ProcessingFailed?)
            && (order.EnterBypass? ==> u == c.(state := Bypassed))
            && (order.ExitBypass? <==> c.state.Bypassed? && e.ProcessingRecovered?)
            && (order.ExitBypass? ==> u == c.(state := Running))
    ensures var (u, order) := Apply(p, c, e);
            var lost := Live(c.state) && (e.DeviceLost? || (e.StreamFailed? && e.retryable));
            var broken := Live(c.state) && e.StreamFailed? && !e.retryable;
            var refused := c.state.Opening? && e.OpenFailed?;
            && (order.ScheduleRetry? <==> lost || (refused && !GivesUp(p, c, e)))
            && (lost ==> order.delayMs == p.initialBackoffMs && u == Controller(Recovering, 0))
            && (refused && !GivesUp(p, c, e) ==>
                  && order.delayMs == DelayForFailure(p, c.reopenFailures + 1)
                  && u == Controller(Recovering, c.reopenFailures + 1))
            && (order.SurfaceFailure? <==> broken || (refused && GivesUp(p, c, e)))
            && (order.SurfaceFailure? ==> order.fault == e.fault && u.state.Failed?)
    ensures var (u, order) := Apply(p, c, e);
            order.NoAction? ==> u == if c.state.Opening? && e.OpenSucceeded? then Controller(Running, 0) else c
  {
    hide DelayForFailure;
  }

  /** The controller and its orders over a sequence of events from any controller. */
  function Orders(p: RecoveryPolicy, c: Controller, events: seq<StreamEvent>): (Controller, seq<StreamAction>)
    decreases |events|
  {
    if |events| == 0 then (c, [])
    else
      var (u, order) := Apply(p, c, events[0]);
      var (v, orders) := Orders(p, u, events[1..]);
      (v, [order] + orders)
  }

  lemma {:induction false} OrdersAppend(p: RecoveryPolicy, c: Controller, a: seq<StreamEvent>, b: seq<StreamEvent>)
    ensures var (u, first) := Orders(p, c, a);
            var (v, second) := Orders(p, u, b);
            Orders(p, c, a + b) == (v, first + second)
    decreases |a|
  {
    hide Apply;
    if |a| == 0 {
      assert a + b == b && [] + Orders(p, c, b).1 == Orders(p, c, b).1;
    } else {
      var (u, order) := Apply(p, c, a[0]);
      OrdersAppend(p, u, a[1..], b);
      assert (a + b)[1..] == a[1..] + b && (a + b)[0] == a[0];
      var (w, others) := Orders(p, u, a[1..]);
      var second := Orders(p, w, b).1;
      assert ([order] + others) + second == [order] + (others + second);
    }
  }

  lemma {:induction false} TwoOrders(p: RecoveryPolicy, c: Controller, d: StreamEvent, e: StreamEvent)
    ensures var (u, first) := Apply(p, c, d);
            var (v, second) := Apply(p, u, e);
            Orders(p, c, [d, e]) == (v, [first, second])
  {
    hide Apply;
    assert [d, e][1..] == [e] && [e][1..] == [];
    var (u, first) := Apply(p, c, d);
    var (v, second) := Apply(p, u, e);
    assert Orders(p, v, []) == (v, []);
    assert Orders(p, u, [e]) == (v, [second] + []);
    assert [second] + [] == [second] && [first] + [second] == [first, second];
  }

  /** One round of recovery per fault: the timer elapses and the open fails with a fault that may pass. */
  function Rounds(faults: seq<StreamFault>): seq<StreamEvent> {
    if |faults| == 0 then []
    else Rounds(faults[..|faults| - 1]) + [RetryTimerElapsed, OpenFailed(faults[|faults| - 1], true)]
  }

  /**
   What a recovery orders: in each round one open, then the next backoff, or at the last failure the surfaced fault.
   */
  function RoundOrders(p: RecoveryPolicy, failures: nat, faults: seq<StreamFault>): seq<StreamAction>
    requires failures + |faults| <= p.maxReopenFailures
  {
    if |faults| == 0 then []
    else
      var n := failures + |faults|;
      RoundOrders(p, failures, faults[..|faults| - 1])
      + [OpenDevice,
         if n < p.maxReopenFailures then ScheduleRetry(DelayForFailure(p, n)) else SurfaceFailure(faults[|faults| - 1])]
  }

  /**
   Recovery goes on: from a recovering controller every round orders exactly one open and, while failures remain, the
   next backoff; the last permitted failure ends in Failed with its own fault surfaced.
   */
  lemma {:induction false} RecoveryRounds(p: RecoveryPolicy, c: Controller, faults: seq<StreamFault>)
    requires c.state.Recovering? && c.reopenFailures + |faults| <= p.maxReopenFailures
    requires c.reopenFailures < p.maxReopenFailures
    ensures var n := c.reopenFailures + |faults|;
            Orders(p, c, Rounds(faults))
            == (Controller(if n < p.maxReopenFailures then Recovering else Failed, n),
              RoundOrders(p, c.reopenFailures, faults))
  {
    if |faults| > 0 {
      var earlier, last := faults[..|faults| - 1], faults[|faults| - 1];
      RecoveryRounds(p, c, earlier);
      var u := Orders(p, c, Rounds(earlier)).0;
      OrdersAppend(p, c, Rounds(earlier), [RetryTimerElapsed, OpenFailed(last, true)]);
      TwoOrders(p, u, RetryTimerElapsed, OpenFailed(last, true));
      hide DelayForFailure, Orders;
    }
  }

  /** Recovery ends: after any number of failed rounds short of the limit, an open that succeeds leaves it running. */
  lemma {:induction false} RecoveryEnds(p: RecoveryPolicy, c: Controller, faults: seq<StreamFault>)
    requires c.state.Recovering? && c.reopenFailures + |faults| < p.maxReopenFailures
    ensures Orders(p, c, Rounds(faults) + [RetryTimerElapsed, OpenSucceeded])
         == (Controller(Running, 0), RoundOrders(p, c.reopenFailures, faults) + [OpenDevice, NoAction])
  {
    RecoveryRounds(p, c, faults);
    OrdersAppend(p, c, Rounds(faults), [RetryTimerElapsed, OpenSucceeded]);
    TwoOrders(p, Orders(p, c, Rounds(faults)).0, RetryTimerElapsed, OpenSucceeded);
    hide DelayForFailure, Orders, Rounds;
  }

  /** From every controller, failed ones included, a stop and a start open the device again with no failure counted. */
  lemma {:induction false} StopAndStart(p: RecoveryPolicy, c: Controller)
    ensures Orders(p, c, [StopRequested, StartRequested])
         == (Controller(Opening, 0), [if c.state.Stopped? then NoAction else StopDevice, OpenDevice])
  {
    TwoOrders(p, c, StopRequested, StartRequested);
    hide DelayForFailure, Orders;
  }

  /** The controller object: `apply` updates its two fields. */
  class StreamController {
    const policy: RecoveryPolicy
    var state: StreamState
    var reopenFailures: u8

    constructor (p: RecoveryPolicy)
      ensures policy == p && Value() == INITIAL_CONTROLLER
    {
      policy := p;
      state := Stopped;
      reopenFailures := 0;
    }

    function Value(): Controller
      reads this
    {
      Controller(state, reopenFailures)
    }

    method ApplyEvent(event: StreamEvent) returns (t: StreamTransition)
      modifies this
      ensures Value() == Apply(policy, old(Value()), event).0
      ensures t == TransitionOf(policy, old(Value()), event)
    {
      var previous := state;
      var action := NoAction;
      match event {
        case StartRequested =>
          if state.Stopped? {
            reopenFailures := 0;
            state := Opening;
            action := OpenDevice;
          }
        case OpenSucceeded =>
          if state.Opening? {
            reopenFailures := 0;
            state := Running;
          }
        case OpenFailed(fault, retryable) =>
          if state.Opening? && retryable {
            reopenFailures := Min(reopenFailures + 1, 255);
            if reopenFailures >= policy.maxReopenFailures {
              state := Failed;
              action := SurfaceFailure(fault);
            } else {
              state := Recovering;
              action := ScheduleRetry(DelayForFailure(policy, reopenFailures));
            }
          } else if state.Opening? {
            state := Failed;
            action := SurfaceFailure(fault);
          }
        case DeviceLost =>
          if state.Running? || state.Bypassed? {
            reopenFailures := 0;
            state := Recovering;
            action := ScheduleRetry(policy.initialBackoffMs);
          }
        case StreamFailed(fault, retryable) =>
          if state.Running? || state.Bypassed? {
            reopenFailures := 0;
            state := if retryable then Recovering else Failed;
            action := if retryable then ScheduleRetry(policy.initialBackoffMs) else SurfaceFailure(fault);
          }
        case RetryTimerElapsed =>
          if state.Recovering? {
            state := Opening;
            action := OpenDevice;
          }
        case ProcessingFailed =>
          if state.Running? {
            state := Bypassed;
            action := EnterBypass;
          }
        case ProcessingRecovered =>
          if state.Bypassed? {
            state := Running;
            action := ExitBypass;
          }
        case StopRequested =>
          if !state.Stopped? {
            reopenFailures := 0;
            state := Stopped;
            action := StopDevice;
          }
      }
      t := StreamTransition(previous, state, action, reopenFailures);
    }
  }

  // ----- recovery episodes -----

  /** What has happened since the stream was last at rest: device opens ordered and retry delays scheduled. */
  datatype Episode = Episode(opens: nat, delays: seq<u64>)

  predicate AtRest(state: StreamState) { !state.Opening? && !state.Recovering? }

  function Observe(e: Episode, t: StreamTransition): Episode {
    var current := if AtRest(t.previous) then Episode(0, []) else e;
    match t.action
    case OpenDevice => current.(opens := current.opens + 1)
    case ScheduleRetry(delayMs) => current.(delays := current.delays + [delayMs])
    case _ => current
  }

  function ObserveAll(transitions: seq<StreamTransition>): Episode {
    if |transitions| == 0 then Episode(0, [])
      else Observe(ObserveAll(transitions[..|transitions| - 1]), transitions[|transitions| - 1])
  }

  /** The episode respects the policy: bounded opens and retries, delays non-decreasing and within bounds. */
  ghost predicate Bounded(p: RecoveryPolicy, e: Episode) {
    && e.opens <= p.maxReopenFailures && |e.delays| <= p.maxReopenFailures
    && (forall i :: 0 <= i < |e.delays| ==> p.initialBackoffMs <= e.delays[i] <= p.maxBackoffMs)
    && (forall i, j :: 0 <= i < j < |e.delays| ==> e.delays[i] <= e.delays[j])
  }

  ghost predicate EpisodeInv(p: RecoveryPolicy, c: Controller, e: Episode) {
    && Bounded(p, e)
    && (c.state.Opening? || c.state.Recovering? ==>
          && c.reopenFailures < p.maxReopenFailures
          && e.opens == c.reopenFailures + (if c.state.Opening? then 1 else 0)
          && c.reopenFailures <= |e.delays| <= c.reopenFailures + 1
          && (|e.delays| > 0 ==> e.delays[|e.delays| - 1] == DelayForFailure(p, c.reopenFailures)))
    && (c.state.Stopped? || c.state.Running? || c.state.Bypassed? ==> c.reopenFailures == 0)
  }

  /** One more retry with a delay no shorter than the last keeps the episode within the policy. */
  lemma {:induction false} BoundedAppend(p: RecoveryPolicy, e: Episode, delay: u64)
    requires Bounded(p, e) && |e.delays| < p.maxReopenFailures && p.initialBackoffMs <= delay <= p.maxBackoffMs
    requires |e.delays| > 0 ==> e.delays[|e.delays| - 1] <= delay
    ensures Bounded(p, e.(delays := e.delays + [delay]))
  {
  }

  lemma {:induction false} FreshEpisode(p: RecoveryPolicy)
    ensures Bounded(p, Episode(0, []))
  {
  }

  lemma {:induction false} BoundedOpens(p: RecoveryPolicy, e: Episode)
    requires Bounded(p, e)
    ensures e.opens < p.maxReopenFailures ==> Bounded(p, e.(opens := e.opens + 1))
  {
  }

  lemma {:induction false} RestKeepsEpisode(p: RecoveryPolicy, c: Controller, e: Episode, event: StreamEvent)
    requires ValidPolicy(p) && EpisodeInv(p, c, e) && AtRest(c.state)
    ensures EpisodeInv(p, Apply(p, c, event).0, Observe(e, TransitionOf(p, c, event)))
  {
    DelayIsCappedDoubling(p, 0);
    FreshEpisode(p);
    BoundedOpens(p, Episode(0, []));
    BoundedAppend(p, Episode(0, []), p.initialBackoffMs);
    hide DelayForFailure, Bounded;
  }

  /** The failure count and delay after one more failed open, seen from an episode that may continue. */
  lemma {:induction false} NextRetry(p: RecoveryPolicy, c: Controller, e: Episode)
    requires ValidPolicy(p) && EpisodeInv(p, c, e) && c.state.Opening? && c.reopenFailures + 1 < p.maxReopenFailures
    ensures var delay := DelayForFailure(p, c.reopenFailures + 1);
            Bounded(p, e.(delays := e.delays + [delay]))
  {
    DelayIsCappedDoubling(p, c.reopenFailures + 1);
    DelaysGrow(p, c.reopenFailures, c.reopenFailures + 1);
    BoundedAppend(p, e, DelayForFailure(p, c.reopenFailures + 1));
    hide DelayForFailure, Bounded;
  }

  lemma {:induction false} OpeningKeepsEpisode(p: RecoveryPolicy, c: Controller, e: Episode, event: StreamEvent)
    requires ValidPolicy(p) && EpisodeInv(p, c, e) && c.state.Opening?
    ensures EpisodeInv(p, Apply(p, c, event).0, Observe(e, TransitionOf(p, c, event)))
  {
    if c.reopenFailures + 1 < p.maxReopenFailures { NextRetry(p, c, e); }
    hide DelayForFailure, Bounded, ValidPolicy;
  }

  lemma {:induction false} RecoveringKeepsEpisode(p: RecoveryPolicy, c: Controller, e: Episode, event: StreamEvent)
    requires ValidPolicy(p) && EpisodeInv(p, c, e) && c.state.Recovering?
    ensures EpisodeInv(p, Apply(p, c, event).0, Observe(e, TransitionOf(p, c, event)))
  {
    BoundedOpens(p, e);
    hide DelayForFailure, Bounded;
  }

  /** Every event keeps the episode within the policy. */
  lemma {:induction false} ApplyKeepsEpisode(p: RecoveryPolicy, c: Controller, e: Episode, event: StreamEvent)
    requires ValidPolicy(p) && EpisodeInv(p, c, e)
    ensures EpisodeInv(p, Apply(p, c, event).0, Observe(e, TransitionOf(p, c, event)))
  {
    hide EpisodeInv, Apply, Observe, TransitionOf;
    if AtRest(c.state) {
      RestKeepsEpisode(p, c, e, event);
    } else if c.state.Opening? {
      OpeningKeepsEpisode(p, c, e, event);
    } else {
      RecoveringKeepsEpisode(p, c, e, event);
    }
  }

  /** Any sequence of events from a new controller. */
  function ApplyAll(p: RecoveryPolicy, events: seq<StreamEvent>): (Controller, seq<StreamTransition>) {
    if |events| == 0 then (INITIAL_CONTROLLER, [])
    else
      var (c, transitions) := ApplyAll(p, events[..|events| - 1]);
      (Apply(p, c, events[|events| - 1]).0, transitions + [TransitionOf(p, c, events[|events| - 1])])
  }

  /** Over every run a recovery episode orders at most the permitted number of opens and its delays never shrink. */
  lemma {:induction false} RecoveryIsBounded(p: RecoveryPolicy, events: seq<StreamEvent>)
    requires ValidPolicy(p)
    ensures var (c, transitions) := ApplyAll(p, events);
            && EpisodeInv(p, c, ObserveAll(transitions))
            && Bounded(p, ObserveAll(transitions))
            && (c.state.Opening? || c.state.Recovering? ==> c.reopenFailures < p.maxReopenFailures)
  {
    if |events| == 0 {
      FreshEpisode(p);
    } else {
      RecoveryIsBounded(p, events[..|events| - 1]);
      var (c, transitions) := ApplyAll(p, events[..|events| - 1]);
      var event := events[|events| - 1];
      ApplyKeepsEpisode(p, c, ObserveAll(transitions), event);
      assert (transitions + [TransitionOf(p, c, event)])[..|transitions|] == transitions;
      hide Apply, Observe, TransitionOf, Bounded;
    }
  }
}
