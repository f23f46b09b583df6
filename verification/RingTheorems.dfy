/** What every run of the ring guarantees. */
module RingTheorems {
  import opened Words
  import opened Protocol
  import opened RingMachine
  import opened RingSafety

  // ----- monotonicity -----

  /** Cursors, counters and histories of the later state extend those of the earlier one. */
  ghost predicate Extends(s: State, t: State) {
    && t.geo == s.geo && s.frames <= t.frames && s.calls <= t.calls
    && s.mem.generation == t.mem.generation && s.mem.producer <= t.mem.producer && s.mem.consumer <= t.mem.consumer
    && s.mem.drops <= t.mem.drops && Underruns(s.calls) <= Underruns(t.calls)
  }

  lemma {:induction false} ProducerStepExtends(s: State, frame: Frame)
    requires Inv(s) && |frame| == s.geo.frameBytes
    ensures Extends(s, ProducerStep(s, frame))
  {
    hide SlotsOk, Latest, CallsOk, CallOk, UnstableOvertaken, PcOk, Drops, Oks, Underruns, SlotOf;
  }

  /** The four stores of a call only ever raise a cursor or a counter. */
  lemma {:induction false} StoreGrows(s: State)
    requires Inv(s) && !OnlyReads(s.cpc)
    ensures s.mem.consumer <= ConsumerStep(s).mem.consumer && s.mem.drops <= ConsumerStep(s).mem.drops
  {
    hide SlotsOk, Latest, CallsOk, CallOk, UnstableOvertaken, Oks, Drops, Underruns, SlotOf;
    if s.cpc.CRecordDrops? { ConsumerStepKeepsInv(s); }
  }

  lemma {:induction false} ConsumerStepExtends(s: State)
    requires Inv(s)
    ensures Extends(s, ConsumerStep(s))
  {
    hide SlotsOk, Latest, CallsOk, CallOk, UnstableOvertaken, Oks, Drops, Underruns, PcOk, ConsumerStep;
    if OnlyReads(s.cpc) { ReadKeepsMemory(s); } else { StoreGrows(s); }
    var t := ConsumerStep(s);
    if |t.calls| > |s.calls| {
      CountsAppend(s.calls, t.calls[|s.calls|]);
      assert t.calls == s.calls + [t.calls[|s.calls|]];
    } else {
      assert t.calls == s.calls;
    }
  }

  lemma {:induction false} NextExtends(s: State, t: State)
    requires Inv(s) && Next(s, t)
    ensures Extends(s, t)
  {
    hide Inv, ConsumerStep, ProducerStep, Extends;
    if ProducerMoves(s, t) {
      var frame: Frame :| |frame| == s.geo.frameBytes && t == ProducerStep(s, frame);
      ProducerStepExtends(s, frame);
    } else {
      ConsumerStepExtends(s);
    }
  }

  lemma {:induction false} HistoryGrows(run: seq<State>, i: nat, j: nat)
    requires Run(run) && i <= j < |run|
    ensures Extends(run[i], run[j])
  {
    hide Inv, Next;
    if i < j {
      HistoryGrows(run, i, j - 1);
      RunKeepsInv(run, j - 1);
      NextExtends(run[j - 1], run[j]);
    }
  }

  lemma {:induction false} ReachableInv(s: State)
    requires Reachable(s)
    ensures Inv(s)
  {
    var run: seq<State> :| Run(run) && run[|run| - 1] == s;
    RunKeepsInv(run, |run| - 1);
  }

  lemma {:induction false} ReachableNext(s: State, t: State)
    requires Reachable(s) && Next(s, t)
    ensures Reachable(t)
  {
    hide Next;
    var run: seq<State> :| Run(run) && run[|run| - 1] == s;
    var longer := run + [t];
    assert Run(longer) && longer[|longer| - 1] == t;
  }

  lemma {:induction false} CallAt(s: State, k: nat)
    requires Inv(s) && k < |s.calls|
    ensures CallOk(s.geo, s.frames, s.calls[k], Position(s.calls[..k]))
    ensures Position(s.calls[..k + 1]) ==
            Position(s.calls[..k]) + s.calls[k].dropped + (if s.calls[k].status.Ok? then 1 else 0)
    ensures forall j :: 0 <= j < k && s.calls[j].status.SlotUnstable? && s.calls[k].status.Ok? ==>
              s.calls[j].sequence != s.calls[k].sequence
  {
    hide SlotsOk, PcOk, UnstableOvertaken, ProducerOk, Oks, Drops, CallOk;
    assert s.calls[..k + 1] == s.calls[..k] + [s.calls[k]];
    CountsAppend(s.calls[..k], s.calls[k]);
  }

  /** Splitting the history after call j. */
  lemma {:induction false} CountsBetween(calls: seq<Call>, j: nat, k: nat)
    requires j < k <= |calls|
    ensures Oks(calls[..k]) == Oks(calls[..j + 1]) + Oks(calls[j + 1..k])
    ensures Drops(calls[..k]) == Drops(calls[..j + 1]) + Drops(calls[j + 1..k])
    ensures k < |calls| ==> Drops(calls[j + 1..k + 1]) == Drops(calls[j + 1..k]) + calls[k].dropped
  {
    assert calls[..k] == calls[..j + 1] + calls[j + 1..k];
    CountsSplit(calls[..j + 1], calls[j + 1..k]);
    if k < |calls| {
      assert calls[j + 1..k + 1] == calls[j + 1..k] + [calls[k]];
      CountsAppend(calls[j + 1..k], calls[k]);
    }
  }

  // ----- no torn frame -----

  /** In every interleaving a successful call delivers exactly the bytes the producer wrote for that frame. */
  lemma {:induction false} NoTornFrame(s: State, k: nat)
    requires Reachable(s) && k < |s.calls| && s.calls[k].status.Ok?
    ensures var c := s.calls[k]; c.sequence < |s.frames| && c.output == s.frames[c.sequence]
  {
    ReachableInv(s);
    CallAt(s, k);
  }

  /** With a conforming producer a call delivers, underruns or finds its slot overtaken; it never fails otherwise. */
  lemma {:induction false} OnlyThreeOutcomes(s: State, k: nat)
    requires Reachable(s) && k < |s.calls|
    ensures var c := s.calls[k];
            && (c.status.Ok? || c.status.Underrun? || c.status.SlotUnstable?)
            && (c.silence <==> !c.status.Ok?) && (c.silence ==> c.output == Zeros(s.geo.frameBytes))
    ensures !s.ppc.PStuck?
  {
    ReachableInv(s);
    CallAt(s, k);
  }

  // ----- conservation -----

  /** Between calls every frame before the consumer cursor was either delivered or counted as dropped. */
  lemma {:induction false} Conservation(s: State)
    requires Reachable(s) && s.cpc.CIdle?
    ensures && s.mem.consumer == Oks(s.calls) + s.mem.drops
            && s.mem.drops == Drops(s.calls)
            && s.mem.consumer <= s.mem.producer
            && s.mem.underruns == Underruns(s.calls) % TWO_64
    ensures s.mem.underruns == Underruns(s.calls) <==> Underruns(s.calls) < TWO_64
  {
    hide SlotsOk, CallsOk, UnstableOvertaken, Reachable, Oks, Drops, Underruns;
    ReachableInv(s);
  }

  lemma {:induction false} CountsSplit(calls: seq<Call>, more: seq<Call>)
    ensures Oks(calls + more) == Oks(calls) + Oks(more)
    ensures Drops(calls + more) == Drops(calls) + Drops(more)
    decreases |more|
  {
    if more == [] {
      assert calls + more == calls;
    } else {
      var m, c := more[..|more| - 1], more[|more| - 1];
      CountsSplit(calls, m);
      assert calls + more == (calls + m) + [c] && more == m + [c];
      CountsAppend(calls + m, c);
      CountsAppend(m, c);
    }
  }

  /** Deliveries come in order, and the distance between two of them is what was delivered and dropped in between. */
  lemma {:induction false} DeliveriesInOrder(s: State, j: nat, k: nat)
    requires Reachable(s) && j < k < |s.calls|
    requires s.calls[j].status.Ok? && s.calls[k].status.Ok?
    ensures var calls := s.calls;
            calls[k].sequence == calls[j].sequence + 1 + Oks(calls[j + 1..k]) + Drops(calls[j + 1..k + 1])
    ensures s.calls[j].sequence < s.calls[k].sequence
  {
    hide Inv, Reachable, Oks, Drops, SlotOf;
    ReachableInv(s);
    CallAt(s, j);
    CallAt(s, k);
    CountsBetween(s.calls, j, k);
  }

  // ----- overruns and underruns -----

  /**
   A call reports exactly the frames that had fallen out of the ring when it looked, and it looked no
   earlier than its start.
   */
  lemma {:induction false} DropsAreExact(s: State, k: nat)
    requires Reachable(s) && k < |s.calls|
    ensures var c := s.calls[k];
            && c.startProducer <= c.snapProducer <= c.endBegun
            && c.dropped == Max(c.snapProducer - c.startConsumer - s.geo.capacity, 0)
            && c.sequence == c.startConsumer + c.dropped
            && (c.status.Underrun? <==> c.snapProducer == c.startConsumer)
            && (c.startConsumer < c.startProducer ==> !c.status.Underrun?)
  {
    ReachableInv(s);
    CallAt(s, k);
  }

  /** An unstable slot is never spurious: the producer has begun the frame one lap ahead. */
  lemma {:induction false} UnstableMeansOvertaken(s: State, k: nat)
    requires Reachable(s) && k < |s.calls| && s.calls[k].status.SlotUnstable?
    ensures s.calls[k].endBegun > s.calls[k].sequence + s.geo.capacity
  {
    ReachableInv(s);
    CallAt(s, k);
  }

  /**
   An unstable slot never sticks: once a call starts after the overtaking frame was published, at least
   one drop has been reported since the unstable call.
   */
  lemma {:induction false} UnstableFrameIsDropped(s: State, j: nat, k: nat)
    requires Reachable(s) && j < k < |s.calls|
    requires s.calls[j].status.SlotUnstable?
    requires s.calls[k].startProducer > s.calls[j].sequence + s.geo.capacity
    ensures 1 <= Drops(s.calls[j + 1..k + 1])
  {
    hide Inv, Reachable, Oks, Drops, SlotOf;
    ReachableInv(s);
    CallAt(s, j);
    CallAt(s, k);
    CountsBetween(s.calls, j, k);
    if Drops(s.calls[j + 1..k + 1]) == 0 { NothingDeliveredWithoutDrops(s, j, k); }
  }

  /** Until a drop is reported, an unstable frame blocks every delivery after it. */
  lemma {:induction false} NothingDeliveredWithoutDrops(s: State, j: nat, k: nat)
    requires Inv(s) && j < k <= |s.calls| && s.calls[j].status.SlotUnstable? && Drops(s.calls[j + 1..k]) == 0
    ensures Oks(s.calls[j + 1..k]) == 0
    ensures Position(s.calls[..k]) == s.calls[j].sequence
    decreases k
  {
    hide Inv, Oks, Drops, SlotOf;
    CallAt(s, j);
    CountsBetween(s.calls, j, k);
    if k == j + 1 {
      assert s.calls[j + 1..k] == [];
      EmptyCounts();
    } else {
      CountsBetween(s.calls, j, k - 1);
      CallAt(s, k - 1);
      NothingDeliveredWithoutDrops(s, j, k - 1);
    }
  }

  /** Calls that read the producer cursor before the overtaking frame was published report no drop. */
  lemma {:induction false} NoDropBeforeSight(s: State, j: nat, k: nat)
    requires Inv(s) && j < k <= |s.calls| && s.calls[j].status.SlotUnstable?
    requires forall i :: j < i < k ==> s.calls[i].snapProducer <= s.calls[j].sequence + s.geo.capacity
    ensures Drops(s.calls[j + 1..k]) == 0
    decreases k
  {
    hide Inv, Oks, Drops, SlotOf;
    if k == j + 1 {
      assert s.calls[j + 1..k] == [];
      EmptyCounts();
    } else {
      NoDropBeforeSight(s, j, k - 1);
      NothingDeliveredWithoutDrops(s, j, k - 1);
      CallAt(s, k - 1);
      CountsBetween(s.calls, j, k - 1);
    }
  }

  /**
   The first call whose read of the producer cursor follows the publication of the overtaking frame drops, and
   reports exactly the frames from the unstable one up to the oldest still in the ring.
   */
  lemma {:induction false} FirstSightDrops(s: State, j: nat, k: nat)
    requires Reachable(s) && j < k < |s.calls| && s.calls[j].status.SlotUnstable?
    requires forall i :: j < i < k ==> s.calls[i].snapProducer <= s.calls[j].sequence + s.geo.capacity
    requires s.calls[k].snapProducer > s.calls[j].sequence + s.geo.capacity
    ensures s.calls[k].dropped == s.calls[k].snapProducer - s.calls[j].sequence - s.geo.capacity >= 1
  {
    hide Inv, Reachable, Oks, Drops, SlotOf;
    ReachableInv(s);
    NoDropBeforeSight(s, j, k);
    NothingDeliveredWithoutDrops(s, j, k);
    CallAt(s, k);
  }

  /** The call that takes the ring from one idle state to another. */
  ghost predicate OneCall(s: State, t: State) {
    && Reachable(s) && Reachable(t) && s.cpc.CIdle? && t.cpc.CIdle? && t.geo == s.geo
    && |t.calls| == |s.calls| + 1 && s.calls <= t.calls
    && t.calls[|s.calls|].startConsumer == s.mem.consumer && t.calls[|s.calls|].startProducer == s.mem.producer
  }

  /** Every frame the cursor moves over is either dropped and counted, or the one delivered. */
  lemma {:induction false} CallAccounts(s: State, t: State)
    requires OneCall(s, t)
    ensures var c := t.calls[|s.calls|];
            && t.mem.drops == s.mem.drops + c.dropped
            && t.mem.consumer == s.mem.consumer + c.dropped + (if c.status.Ok? then 1 else 0)
  {
    Conservation(s);
    Conservation(t);
    ReachableInv(t);
    CallAt(t, |s.calls|);
    assert t.calls[..|s.calls|] == s.calls && t.calls[..|s.calls| + 1] == t.calls;
    hide Reachable, Inv, Oks, Drops, Underruns, CallOk;
  }

  /**
   A call is silent for two reasons only: nothing was unread when it started, or the producer has by its end begun the
   frame a lap above the one it wanted. So if the producer begins nothing and something is unread, the call delivers,
   and what it delivers is the oldest unread frame still in the ring.
   */
  lemma {:induction false} CallDelivers(s: State, t: State)
    requires OneCall(s, t)
    ensures var c, oldest := t.calls[|s.calls|], Max(s.mem.consumer, s.mem.producer - s.geo.capacity);
            && (c.status.Ok? || s.mem.consumer == s.mem.producer || |t.frames| > oldest + s.geo.capacity)
            && (s.mem.consumer < s.mem.producer == |t.frames| ==> c.status.Ok? && c.sequence == oldest)
  {
    OnlyThreeOutcomes(t, |s.calls|);
    DropsAreExact(t, |s.calls|);
    ReachableInv(t);
    CallAt(t, |s.calls|);
    Conservation(s);
    hide Reachable, Inv, Oks, Drops, Underruns;
    if t.calls[|s.calls|].status.SlotUnstable? { UnstableMeansOvertaken(t, |s.calls|); }
  }

  /** Call i read the producer cursor after the frame one lap above call j's was published. */
  predicate Saw(s: State, j: nat, i: nat)
    requires i < |s.calls| && j < |s.calls|
  {
    s.calls[i].snapProducer > s.calls[j].sequence + s.geo.capacity
  }

  /** The first call after j, and before k, to have seen the overtaking frame. */
  lemma {:induction false} FirstToSee(s: State, j: nat, k: nat) returns (i: nat)
    requires j < k <= |s.calls| && exists n :: j < n < k && Saw(s, j, n)
    ensures j < i < k && Saw(s, j, i) && forall n :: j < n < i ==> !Saw(s, j, n)
    decreases k
  {
    if exists n :: j < n < k - 1 && Saw(s, j, n) {
      i := FirstToSee(s, j, k - 1);
    } else {
      i := k - 1;
    }
  }

  /**
   A call that starts after the overtaking frame was published drops exactly when the cursor it reads is more than
   one capacity past the consumer. If it drops nothing, a call in between had already seen the frame and dropped;
   so it does drop when no call in between had seen it.
   */
  lemma {:induction false} LateStartDrops(s: State, j: nat, k: nat)
    requires Reachable(s) && j < k < |s.calls| && s.calls[j].status.SlotUnstable?
    requires s.calls[k].startProducer > s.calls[j].sequence + s.geo.capacity
    ensures s.calls[k].dropped >= 1 <==> s.calls[k].snapProducer > s.calls[k].startConsumer + s.geo.capacity
    ensures s.calls[k].dropped == 0 ==> exists i :: j < i < k && Saw(s, j, i) && s.calls[i].dropped >= 1
    ensures (forall i :: j < i < k ==> !Saw(s, j, i)) ==> s.calls[k].dropped >= 1
  {
    DropsAreExact(s, k);
    var first := k;
    if exists i :: j < i < k && Saw(s, j, i) { first := FirstToSee(s, j, k); }
    forall n | j < n < first
      ensures s.calls[n].snapProducer <= s.calls[j].sequence + s.geo.capacity
    {
      assert !Saw(s, j, n);
    }
    FirstSightDrops(s, j, first);
    hide Reachable;
  }

  /**
   While nothing more is published after the overtaking frame is first seen, such a call drops exactly when no
   call in between had read the producer cursor after that publication.
   */
  lemma {:induction false} LateStartDropsIffUnseen(s: State, j: nat, k: nat)
    requires Reachable(s) && j < k < |s.calls| && s.calls[j].status.SlotUnstable?
    requires s.calls[k].startProducer > s.calls[j].sequence + s.geo.capacity
    requires forall i :: j < i < k && Saw(s, j, i) ==> s.calls[k].snapProducer <= s.calls[i].snapProducer
    ensures s.calls[k].dropped >= 1 <==> forall i :: j < i < k ==> !Saw(s, j, i)
  {
    LateStartDrops(s, j, k);
    forall i | j < i < k && Saw(s, j, i) ensures s.calls[k].dropped == 0 { SeenMeansPassed(s, i, k); }
    hide Reachable;
  }

  /** A call leaves the consumer within one capacity of the cursor it read, for good. */
  lemma {:induction false} SeenMeansPassed(s: State, i: nat, k: nat)
    requires Reachable(s) && i < k < |s.calls|
    ensures s.calls[i].snapProducer <= s.calls[k].startConsumer + s.geo.capacity
    ensures s.calls[k].snapProducer <= s.calls[i].snapProducer ==> s.calls[k].dropped == 0
  {
    hide Inv, Reachable, Oks, Drops, SlotOf;
    ReachableInv(s);
    CallAt(s, i);
    CallAt(s, k);
    CountsBetween(s.calls, i, k);
  }

  lemma {:induction false} EmptyCounts()
    ensures Oks([]) == 0 && Drops([]) == 0 && Underruns([]) == 0
  {
  }

  // ----- third-party snapshots -----

  datatype Observation = Observed(snap: Cursors) | ZeroGeneration | NeverStable

  ghost predicate LoadTimes(run: seq<State>, times: seq<nat>) {
    && (forall a :: 0 <= a < |times| ==> times[a] < |run|)
    && (forall a, b :: 0 <= a <= b < |times| ==> times[a] <= times[b])
  }

  /**
   `ReadStableCursorSnapshot` by a thread that is neither endpoint: load number a happens in state `run[times[a]]`.
   */
  ghost function ObserveCursors(run: seq<State>, times: seq<nat>, attempts: nat): Observation
    requires |times| == 6 * attempts && LoadTimes(run, times)
    decreases attempts
  {
    if attempts == 0 then NeverStable
    else
      var generation := run[times[0]].mem.generation;
      if generation == 0 then ZeroGeneration
      else
        var producer := run[times[1]].mem.producer;
        var consumer := run[times[2]].mem.consumer;
        var drops := run[times[3]].mem.drops;
        var underruns := run[times[4]].mem.underruns;
        if generation != run[times[5]].mem.generation || producer < consumer
          then ObserveCursors(run, times[6..], attempts - 1)
        else Observed(Cursors(generation, producer, consumer, drops, underruns))
  }

  /** The consumer load saw this state: the observed backlog never exceeds the true one there. */
  ghost predicate BacklogBound(s: State, snap: Cursors) {
    snap.consumer == s.mem.consumer && snap.producer - snap.consumer <= s.mem.producer - s.mem.consumer
  }

  lemma {:induction false} CursorFacts(run: seq<State>, i: nat)
    requires Run(run) && i < |run|
    ensures run[i].mem.generation == run[i].geo.generation != 0
    ensures run[i].mem.underruns == Underruns(run[i].calls) % TWO_64
  {
    hide SlotsOk, CallsOk, UnstableOvertaken, PcOk;
    RunKeepsInv(run, i);
  }

  /**
   A snapshot taken beside both endpoints is ordered, lies between start and end, and bounds the backlog from below.
   */
  lemma {:induction false} ThirdPartySnapshot(run: seq<State>, times: seq<nat>, attempts: nat)
    requires Run(run) && 0 < attempts && |times| == 6 * attempts && LoadTimes(run, times)
    ensures !ObserveCursors(run, times, attempts).ZeroGeneration?
    ensures ObserveCursors(run, times, attempts).Observed? ==>
              var snap := ObserveCursors(run, times, attempts).snap;
              var first, last := run[times[0]], run[times[|times| - 1]];
              && snap.generation == first.geo.generation && snap.consumer <= snap.producer
              && first.mem.producer <= snap.producer <= last.mem.producer
              && first.mem.consumer <= snap.consumer <= last.mem.consumer
              && first.mem.drops <= snap.drops <= last.mem.drops
              && (exists a :: 0 <= a < |times| && BacklogBound(run[times[a]], snap))
              && (exists u: nat :: Underruns(first.calls) <= u <= Underruns(last.calls) && snap.underruns == u % TWO_64)
    decreases attempts
  {
    hide Run, Inv, Underruns;
    var last := times[|times| - 1];
    CursorFacts(run, times[0]);
    HistoryGrows(run, times[0], times[5]);
    HistoryGrows(run, times[0], times[1]);
    HistoryGrows(run, times[1], last);
    HistoryGrows(run, times[0], times[2]);
    HistoryGrows(run, times[1], times[2]);
    HistoryGrows(run, times[2], last);
    HistoryGrows(run, times[0], times[3]);
    HistoryGrows(run, times[3], last);
    HistoryGrows(run, times[0], times[4]);
    HistoryGrows(run, times[4], last);
    CursorFacts(run, times[4]);
    if run[times[1]].mem.producer < run[times[2]].mem.consumer {
      if attempts > 1 {
        var rest := times[6..];
        assert rest[|rest| - 1] == last;
        ThirdPartySnapshot(run, rest, attempts - 1);
        HistoryGrows(run, times[0], rest[0]);
        if ObserveCursors(run, rest, attempts - 1).Observed? {
          var snap := ObserveCursors(run, rest, attempts - 1).snap;
          var a :| 0 <= a < |rest| && BacklogBound(run[rest[a]], snap);
          assert BacklogBound(run[times[a + 6]], snap);
        }
      }
    } else {
      var snap := ObserveCursors(run, times, attempts).snap;
      assert BacklogBound(run[times[2]], snap);
      assert snap.underruns == Underruns(run[times[4]].calls) % TWO_64;
    }
  }

  /** The two cursors of a snapshot stood in the ring together. */
  predicate Together(s: State, snap: Cursors) { s.mem.consumer == snap.consumer && s.mem.producer == snap.producer }

  /** The consumer stood at the observed cursor while the producer had not yet passed the observed one. */
  predicate InTime(s: State, snap: Cursors) { s.mem.consumer == snap.consumer && s.mem.producer <= snap.producer }

  /**
   The two cursors of a snapshot have stood together exactly when the consumer reached its own before the producer
   passed the other.
   */
  lemma {:induction false} PairCoexists(run: seq<State>, times: seq<nat>, attempts: nat)
    requires Run(run) && |times| == 6 * attempts && LoadTimes(run, times)
    requires ObserveCursors(run, times, attempts).Observed?
    ensures var snap := ObserveCursors(run, times, attempts).snap;
            (exists i :: 0 <= i < |run| && Together(run[i], snap)) <==>
              (exists i :: 0 <= i < |run| && InTime(run[i], snap))
    decreases attempts
  {
    var snap := ObserveCursors(run, times, attempts).snap;
    var a, b := times[1], times[2];
    var accepted :=
      run[times[0]].mem.generation == run[times[5]].mem.generation && run[a].mem.producer >= run[b].mem.consumer;
    if !accepted {
      PairCoexists(run, times[6..], attempts - 1);
      assert snap == ObserveCursors(run, times[6..], attempts - 1).snap;
    }
    hide Run, Inv, ObserveCursors;
    if accepted && exists i :: 0 <= i < |run| && InTime(run[i], snap) {
      assert snap.producer == run[a].mem.producer && snap.consumer == run[b].mem.consumer;
      var i :| 0 <= i < |run| && InTime(run[i], snap);
      HistoryGrows(run, a, b);
      if i <= a { HistoryGrows(run, i, a); } else { HistoryGrows(run, a, i); }
      assert Together(run[if i <= a then a else i], snap);
    }
    assert forall i :: 0 <= i < |run| && Together(run[i], snap) ==> InTime(run[i], snap);
  }
}
