/**
 One run of a one-slot ring with one-byte frames, for what the general theorems do not promise. The producer
 publishes frame 0 and overtakes it while a call is reading; a second call straddles the publication of frame 1,
 reports the drop and delivers frame 1; a third call starts after the publication and reports no drop.
 */
module RingWitness {
  import opened Words
  import opened Protocol
  import opened RingMachine
  import opened RingTheorems

  const GEO := Geometry(1, 1, 1)
  const FIRST: Frame := [7]
  const SECOND: Frame := [9]

  const OVERTAKEN := Call(SlotUnstable, 0, 0, 0, true, [0], 1, 0, 1, 2)
  const STRADDLING := Call(Ok, 1, 1, 0, false, SECOND, 1, 0, 2, 2)
  const LATE := Call(Underrun, 2, 0, 0, true, [0], 2, 2, 2, 2)

  const FULL := Window(1, 1, 0, 0, 0, 0)
  const LAPPED := Window(1, 1, 0, 0, 1, 1)
  const EMPTY := Window(1, 0, 0, 0, 2, 0)

  function Cells(producer: u64, consumer: u64, drops: u64, underruns: u64, stamp: u64, payload: byte): Memory {
    Memory(1, producer, consumer, drops, underruns, [stamp], [payload])
  }

  function At(
    mem: Memory, ppc: ProducerPc, frames: seq<Frame>, cpc: ConsumerPc, calls: seq<Call>, entryProducer: u64,
    entryConsumer: u64)
      : State
  {
    State(GEO, mem, ppc, frames, [|frames| - 1], cpc, calls, entryProducer, entryConsumer)
  }

  /** Frame 0 is begun, copied, committed and published. */
  function PublishFirst(i: nat): State
    requires i <= 8
  {
    At(Cells(if i == 8 then 1 else 0, 0, 0, 0, if 1 <= i <= 3 then 1 else 0, if i >= 2 then 7 else 0),
       [PIdle, PCopy(0), PCopy(1), PCommitStore, PPublishGeneration, PPublishCurrent, PPublishConsumer(0),
         PPublishStore, PIdle][i],
       if i == 0 then [] else [FIRST], CIdle, [], 0, 0)
  }

  /** The first call plans frame 0; then the producer begins frame 1 in its slot. */
  function Overtake(i: nat): State
    requires i <= 9
  {
    At(Cells(1, 0, 0, 0, if i >= 8 then 3 else 0, 7), if i >= 8 then PCopy(0) else PIdle,
       if i >= 8 then [FIRST, SECOND] else [FIRST],
       [CIdle, CSnapGeneration(0), CSnapProducer(0, 1), CSnapConsumer(0, 1, 1), CSnapDrops(0, 1, 1, 0),
         CSnapUnderruns(0, 1, 1, 0, 0),
        CSnapRecheck(0, Cursors(1, 1, 0, 0, 0)), CStampBefore(FULL), CStampBefore(FULL), CIdle][i],
       if i == 9 then [OVERTAKEN] else [], if i == 0 then 0 else 1, 0)
  }

  /** The second call starts; then frame 1 is copied, committed and published. */
  function PublishSecond(i: nat): State
    requires i <= 9
  {
    At(Cells(if i == 9 then 2 else 1, 0, 0, 0, if i >= 5 then 2 else 3, if i >= 3 then 9 else 7),
       [PCopy(0), PCopy(0), PCopy(0), PCopy(1), PCommitStore, PPublishGeneration, PPublishCurrent, PPublishConsumer(1),
         PPublishStore, PIdle][i],
       [FIRST, SECOND], if i == 0 then CIdle else if i == 1 then CSnapGeneration(0) else CSnapProducer(0, 1),
       [OVERTAKEN], 1, 0)
  }

  /** The second call sees frame 1 and accounts for the lost frame 0. */
  function Account(i: nat): State
    requires i <= 10
  {
    At(Cells(2, if i >= 9 then 1 else 0, if i == 10 then 1 else 0, 0, 2, 9), PIdle, [FIRST, SECOND],
       [CSnapProducer(0, 1), CSnapConsumer(0, 1, 2), CSnapDrops(0, 1, 2, 0), CSnapUnderruns(0, 1, 2, 0, 0),
        CSnapRecheck(0, Cursors(1, 2, 0, 0, 0)), CSkipGeneration(LAPPED), CSkipCurrent(LAPPED),
          CSkipProducer(LAPPED, 0),
        CSkipStore(LAPPED), CRecordDrops(LAPPED), CStampBefore(LAPPED)][i],
       [OVERTAKEN], 1, 0)
  }

  /** It delivers frame 1. */
  function Deliver(i: nat): State
    requires i <= 7
  {
    At(Cells(2, if i == 7 then 2 else 1, 1, 0, 2, 9), PIdle, [FIRST, SECOND],
       [CStampBefore(LAPPED), CCopy(LAPPED, []), CCopy(LAPPED, SECOND), CDoneGeneration(LAPPED, SECOND),
         CDoneCurrent(LAPPED, SECOND),
        CDoneProducer(LAPPED, SECOND, 1), CDoneStore(LAPPED, SECOND), CIdle][i],
       if i == 7 then [OVERTAKEN, STRADDLING] else [OVERTAKEN], 1, 0)
  }

  /** The third call finds nothing left. */
  function RunDry(i: nat): State
    requires i <= 8
  {
    At(Cells(2, 2, 1, if i == 8 then 1 else 0, 2, 9), PIdle, [FIRST, SECOND],
       [CIdle, CSnapGeneration(0), CSnapProducer(0, 1), CSnapConsumer(0, 1, 2), CSnapDrops(0, 1, 2, 2),
         CSnapUnderruns(0, 1, 2, 2, 1),
        CSnapRecheck(0, Cursors(1, 2, 2, 1, 0)), CRecordUnderrun(EMPTY), CIdle][i],
       if i == 8 then [OVERTAKEN, STRADDLING, LATE] else [OVERTAKEN, STRADDLING],
       if i == 0 then 1 else 2, if i == 0 then 0 else 2)
  }

  function Story(n: nat): State
    requires n <= 51
  {
    if n <= 8 then PublishFirst(n)
    else if n <= 17 then Overtake(n - 8)
    else if n <= 26 then PublishSecond(n - 17)
    else if n <= 36 then Account(n - 26)
    else if n <= 43 then Deliver(n - 36)
    else RunDry(n - 43)
  }

  lemma {:induction false} WellSized(s: State)
    requires s.geo == GEO && |s.mem.stamps| == |s.mem.audio| == |s.newest| == 1 && |s.frames| <= 2
    requires forall n :: 0 <= n < |s.frames| ==> |s.frames[n]| == 1
    requires s.ppc.PIdle? || 0 < |s.frames|
    ensures Sized(s)
  {
    assert Offset(1, 1) == Offset(0, 1) + 1;
  }

  lemma {:induction false} PublishFirstRuns(i: nat)
    requires i < 8
    ensures Next(PublishFirst(i), PublishFirst(i + 1))
  {
    WellSized(PublishFirst(i));
    assert Offset(0, 1) == 0;
    assert PublishFirst(i + 1) == ProducerStep(PublishFirst(i), FIRST);
    assert ProducerMoves(PublishFirst(i), PublishFirst(i + 1));
  }

  lemma {:induction false} OvertakeRuns(i: nat)
    requires i < 9
    ensures Next(Overtake(i), Overtake(i + 1))
  {
    WellSized(Overtake(i));
    if i == 7 {
      assert Overtake(i + 1) == ProducerStep(Overtake(i), SECOND);
      assert ProducerMoves(Overtake(i), Overtake(i + 1));
    } else {
      assert Zeros(1) == [0] && [] + [OVERTAKEN] == [OVERTAKEN];
      assert Overtake(i + 1) == ConsumerStep(Overtake(i));
    }
  }

  lemma {:induction false} PublishSecondRuns(i: nat)
    requires i < 9
    ensures Next(PublishSecond(i), PublishSecond(i + 1))
  {
    WellSized(PublishSecond(i));
    assert Offset(0, 1) == 0;
    if i < 2 {
      assert PublishSecond(i + 1) == ConsumerStep(PublishSecond(i));
    } else {
      assert PublishSecond(i + 1) == ProducerStep(PublishSecond(i), SECOND);
      assert ProducerMoves(PublishSecond(i), PublishSecond(i + 1));
    }
  }

  lemma {:induction false} AccountRuns(i: nat)
    requires i < 10
    ensures Next(Account(i), Account(i + 1))
  {
    WellSized(Account(i));
    assert Account(i + 1) == ConsumerStep(Account(i));
  }

  lemma {:induction false} DeliverRuns(i: nat)
    requires i < 7
    ensures Next(Deliver(i), Deliver(i + 1))
  {
    WellSized(Deliver(i));
    assert Offset(0, 1) == 0;
    assert [] + [9] == SECOND && [OVERTAKEN] + [STRADDLING] == [OVERTAKEN, STRADDLING];
    assert Deliver(i + 1) == ConsumerStep(Deliver(i));
  }

  lemma {:induction false} RunDryRuns(i: nat)
    requires i < 8
    ensures Next(RunDry(i), RunDry(i + 1))
  {
    WellSized(RunDry(i));
    assert Zeros(1) == [0] && [OVERTAKEN, STRADDLING] + [LATE] == [OVERTAKEN, STRADDLING, LATE];
    assert RunDry(i + 1) == ConsumerStep(RunDry(i));
  }

  lemma {:induction false} PhasesMeet()
    ensures PublishFirst(8) == Overtake(0) && Overtake(9) == PublishSecond(0) && PublishSecond(9) == Account(0)
    ensures Account(10) == Deliver(0) && Deliver(7) == RunDry(0)
  {
  }

  lemma {:induction false} StoryRuns(n: nat)
    requires n < 51
    ensures Next(Story(n), Story(n + 1))
  {
    PhasesMeet();
    hide Next, PublishFirst, Overtake, PublishSecond, Account, Deliver, RunDry;
    if n < 8 { PublishFirstRuns(n); }
    else if n < 17 { OvertakeRuns(n - 8); }
    else if n < 26 { PublishSecondRuns(n - 17); }
    else if n < 36 { AccountRuns(n - 26); }
    else if n < 43 { DeliverRuns(n - 36); }
    else { RunDryRuns(n - 43); }
  }

  function StoryRun(): (run: seq<State>)
    ensures |run| == 52
  {
    seq(52, n requires 0 <= n < 52 => Story(n))
  }

  lemma {:induction false} StoryIsRun()
    ensures Run(StoryRun()) && Reachable(Story(51))
  {
    var run := StoryRun();
    StoryBegins();
    hide Next, Init, Story;
    forall i | 0 <= i < |run| - 1 ensures Next(run[i], run[i + 1]) { StoryRuns(i); }
    assert Run(run) && run[|run| - 1] == Story(51);
  }

  lemma {:induction false} StoryBegins()
    ensures Init(Story(0))
  {
    assert Offset(1, 1) == Offset(0, 1) + 1;
    assert Story(0).mem.audio == Zeros(Offset(1, 1));
  }

  /**
   The first call to start after the overtaking frame was published need not report a drop: here the call before
   it had already read the cursor and reported it.
   */
  lemma {:induction false} LateCallReportsNoDrop()
    ensures var s := Story(51);
            && Reachable(s) && |s.calls| == 3 && s.calls[0].status.SlotUnstable?
            && s.calls[1].startProducer <= s.calls[0].sequence + s.geo.capacity < s.calls[2].startProducer
            && s.calls[1].dropped == 1 && s.calls[2].dropped == 0
  {
    StoryIsRun();
  }

  lemma {:induction false} CursorsNeverBothOne(n: nat)
    requires n <= 51
    ensures !(Story(n).mem.producer == 1 && Story(n).mem.consumer == 1)
  {
  }

  /** Generation, producer, consumer, drops, underruns and generation again are loaded in these states. */
  const LOADS := [8, 8, 35, 35, 35, 35]

  lemma {:induction false} StorySnapshot()
    ensures LoadTimes(StoryRun(), LOADS) && ObserveCursors(StoryRun(), LOADS, 1).Observed?
    ensures var snap := ObserveCursors(StoryRun(), LOADS, 1).snap; snap.producer == 1 && snap.consumer == 1
  {
    assert Story(8).mem == Cells(1, 0, 0, 0, 0, 7) && Story(35).mem == Cells(2, 1, 0, 0, 2, 9);
    hide Story;
  }

  /** A stable snapshot may pair a producer cursor and a consumer cursor that never stood in the ring together. */
  lemma {:induction false} SnapshotPairNeverCoexisted()
    ensures Run(StoryRun()) && LoadTimes(StoryRun(), LOADS) && ObserveCursors(StoryRun(), LOADS, 1).Observed?
    ensures var run, snap := StoryRun(), ObserveCursors(StoryRun(), LOADS, 1).snap;
            forall i :: 0 <= i < |run| ==>
                     !(run[i].mem.producer == snap.producer && run[i].mem.consumer == snap.consumer)
  {
    StoryIsRun();
    StorySnapshot();
    hide Story, Run, LoadTimes, ObserveCursors;
    var run := StoryRun();
    forall i | 0 <= i < |run|
      ensures !(run[i].mem.producer == 1 && run[i].mem.consumer == 1)
    {
      CursorsNeverBothOne(i);
    }
  }
}
