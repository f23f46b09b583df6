/**
 `InitializeCursorSession`: six stores, with generation zero as the marker of a reset in progress. The endpoints are
 quiet meanwhile, but a status reader may take its loads anywhere between the stores.
 */
module SessionReset {
  import opened Words
  import opened Protocol
  import opened RingTheorems

  /** The cursor block after the first n stores of a reset to generation g. */
  function AfterStores(c: Cursors, g: u64, n: nat): Cursors
    requires n <= 6
  {
    if n == 0 then c
    else if n == 1 then c.(generation := 0)
    else if n == 2 then Cursors(0, 0, c.consumer, c.drops, c.underruns)
    else if n == 3 then Cursors(0, 0, 0, c.drops, c.underruns)
    else if n == 4 then Cursors(0, 0, 0, 0, c.underruns)
    else if n == 5 then Cursors(0, 0, 0, 0, 0)
    else Cursors(g, 0, 0, 0, 0)
  }

  /** Load a of the reader happens after the first `times[a]` stores. */
  ghost predicate LoadPoints(times: seq<nat>) {
    && (forall a :: 0 <= a < |times| ==> times[a] <= 6)
    && (forall a, b :: 0 <= a <= b < |times| ==> times[a] <= times[b])
  }

  /** `ReadStableCursorSnapshot` beside a reset. */
  ghost function ObserveReset(c: Cursors, g: u64, times: seq<nat>, attempts: nat): Observation
    requires |times| == 6 * attempts && LoadPoints(times)
    decreases attempts
  {
    if attempts == 0 then NeverStable
    else
      var before := AfterStores(c, g, times[0]).generation;
      if before == 0 then ZeroGeneration
      else
        var producer, consumer := AfterStores(c, g, times[1]).producer, AfterStores(c, g, times[2]).consumer;
        var drops, underruns := AfterStores(c, g, times[3]).drops, AfterStores(c, g, times[4]).underruns;
        if before != AfterStores(c, g, times[5]).generation || producer < consumer
          then ObserveReset(c, g, times[6..], attempts - 1)
        else Observed(Cursors(before, producer, consumer, drops, underruns))
  }

  /** A snapshot taken beside the reset, if there is one, is the old block or the new session's, never a mixture. */
  ghost predicate Whole(c: Cursors, g: u64, o: Observation) {
    o.Observed? ==> o.snap == c || o.snap == Cursors(g, 0, 0, 0, 0)
  }

  ghost predicate NeverMixes(c: Cursors, g: u64) {
    forall times: seq<nat>, attempts: nat ::
      |times| == 6 * attempts && LoadPoints(times) ==> Whole(c, g, ObserveReset(c, g, times, attempts))
  }

  /** Two of the four cleared fields hold something. */
  predicate TwoFieldsSet(c: Cursors) {
    || (c.producer != 0 && (c.consumer != 0 || c.drops != 0 || c.underruns != 0))
    || (c.consumer != 0 && (c.drops != 0 || c.underruns != 0))
    || (c.drops != 0 && c.underruns != 0)
  }

  /** With a new generation, or with at most one field to clear, no choice of load points and attempts mixes. */
  lemma {:induction false} SnapshotStaysWhole(c: Cursors, g: u64, times: seq<nat>, attempts: nat)
    requires g != 0 && (g != c.generation || !TwoFieldsSet(c))
    requires |times| == 6 * attempts && LoadPoints(times)
    ensures Whole(c, g, ObserveReset(c, g, times, attempts))
    decreases attempts
  {
    if attempts > 0 {
      assert times[0] <= times[1] <= times[2] <= times[3] <= times[4] <= times[5];
      SnapshotStaysWhole(c, g, times[6..], attempts - 1);
    }
  }

  /**
   With the generation reused and two fields set there are load points that mix: both generation loads agree, one
   field is read before it was cleared and another one after.
   */
  lemma {:induction false} ReusedGenerationMixes(c: Cursors) returns (times: seq<nat>)
    requires c.generation != 0 && TwoFieldsSet(c)
    ensures |times| == 6 && LoadPoints(times) && !Whole(c, c.generation, ObserveReset(c, c.generation, times, 1))
  {
    times := if c.producer != 0 then [0, 0, 6, 6, 6, 6] else if c.drops != 0 then [0, 3, 3, 3, 6, 6]
      else [0, 3, 3, 4, 4, 6];
    assert LoadPoints(times);
    assert times[6..] == [];
  }

  /**
   A status reader can never take a mixture of two sessions for a stable snapshot, whatever its load points and
   attempts, exactly when the new session has another generation or at most one field has to be cleared.
   */
  lemma {:induction false} ResetNeverMixes(c: Cursors, g: u64)
    requires g != 0
    ensures NeverMixes(c, g) <==> g != c.generation || !TwoFieldsSet(c)
  {
    if g != c.generation || !TwoFieldsSet(c) {
      forall times: seq<nat>, attempts: nat | |times| == 6 * attempts && LoadPoints(times)
        ensures Whole(c, g, ObserveReset(c, g, times, attempts))
      {
        SnapshotStaysWhole(c, g, times, attempts);
      }
    } else {
      var times := ReusedGenerationMixes(c);
      assert |times| == 6 * 1 && !Whole(c, g, ObserveReset(c, g, times, 1));
    }
    hide TwoFieldsSet, Whole, ObserveReset;
  }
}
