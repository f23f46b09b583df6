/** What every run of the capture pipeline guarantees. */
module CaptureTheorems {
  import opened Words
  import opened Wrappers
  import opened Reframing
  import opened StreamControl
  import opened CaptureSpec

  /** Frames numbered consecutively from `from` up to but not including `to`. */
  ghost predicate Numbered(frames: seq<CapturedFrame>, from: int, to: int) {
    from + |frames| == to && forall i :: 0 <= i < |frames| ==> frames[i].sequence == from + i
  }

  // ----- one assembly, one drain -----

  /** Successful assembly numbers its frames from the old sequence to the new one; a failure never turns it back. */
  lemma {:induction false} AssembleNumbers(d: Decoder, next: u64, packets: seq<ReframedPacket>)
    ensures var (r, n) := Assemble(d, next, packets);
            && next <= n <= next + |packets|
            && (r.Success? ==> |r.value| == |packets| && Numbered(r.value, next, n))
            && (r.Success? ==> forall i :: 0 <= i < |packets| ==>
                  && r.value[i].flags == packets[i].flags && r.value[i].devicePosition == packets[i].devicePosition
                  && r.value[i].qpcPosition == packets[i].qpcPosition
                  && r.value[i].capturedAtMicros == packets[i].qpcPosition / 10
                  && d.decode(packets[i].bytes) == Success(r.value[i].samples))
  {
    if |packets| > 0 { AssembleNumbers(d, next, packets[..|packets| - 1]); }
  }

  /** A frame assembles exactly when its samples decode and pass the check and a number is left for the next one. */
  predicate Assembles(d: Decoder, number: int, p: ReframedPacket) {
    && d.decode(p.bytes).Success? && number < U64_MAX
    && d.check(d.decode(p.bytes).value).None?
  }

  /** Assembly succeeds exactly when every frame assembles under its own number. */
  lemma {:induction false} AssembleSucceeds(d: Decoder, next: u64, packets: seq<ReframedPacket>)
    ensures Assemble(d, next, packets).0.Success? <==>
              forall i :: 0 <= i < |packets| ==> Assembles(d, next + i, packets[i])
  {
    if |packets| > 0 {
      AssembleSucceeds(d, next, packets[..|packets| - 1]);
      AssembleNumbers(d, next, packets[..|packets| - 1]);
    }
  }

  lemma {:induction false} PushNumbers(s: Session, st: PumpState, p: CapturedPacket)
    requires ValidSession(s)
    ensures var (r, st') := AssemblerPush(s, st, p);
            st.next <= st'.next && (r.Success? ==> Numbered(r.value, st.next, st'.next))
  {
    var o := Push(s.format, st.pending, p);
    if o.result.Success? { AssembleNumbers(s.decoder.value, st.next, o.result.value); }
    hide Push, Assemble;
  }

  /** A successful drain numbers its frames consecutively, stays within budget, and reports the queue truthfully. */
  lemma {:induction false} DrainNumbers(
    s: Session, budget: nat, st: PumpState, signaled: bool, replies: nat -> Reply, i: nat, frames: seq<CapturedFrame>,
      from: int)
    requires ValidSession(s) && i <= budget && Numbered(frames, from, st.next)
    ensures var (r, st') := Drain(s, budget, st, signaled, replies, i, frames);
            && st.next <= st'.next
            && (r.Success? ==>
                  && Numbered(r.value.frames, from, st'.next)
                  && i <= r.value.packetsConsumed <= budget && r.value.eventSignaled == signaled
                  && r.value.queueDrained == (replies(r.value.packetsConsumed).nextFrames == Success(0))
                  && r.value.hitPacketBudget == !r.value.queueDrained
                  && (r.value.hitPacketBudget ==> r.value.packetsConsumed == budget))
    decreases budget - i
  {
    hide AssemblerPush, ValidSession;
    if i < budget && replies(i).nextFrames.Success? && replies(i).nextFrames.value != 0 && replies(i).packet.Success? {
      match replies(i).packet.value
      case None => DrainNumbers(s, budget, st, signaled, replies, i + 1, frames, from);
      case Some(p) =>
        PushNumbers(s, st, p);
        var (r, st') := AssemblerPush(s, st, p);
        if r.Success? { DrainNumbers(s, budget, st', signaled, replies, i + 1, frames + r.value, from); }
    }
  }

  lemma {:induction false} WaitNumbers(
    s: Session, budget: nat, st: PumpState, wait: Result<bool, CaptureError>, replies: nat -> Reply)
    requires ValidSession(s)
    ensures var (r, st') := WaitAndDrain(s, budget, st, wait, replies);
            st.next <= st'.next && (r.Success? ==> Numbered(r.value.frames, st.next, st'.next))
  {
    DrainNumbers(s, budget, st, true, replies, 0, [], st.next);
    hide Drain;
  }

  // ----- numbers used up but never handed out -----

  /** How many of the packets assemble, one after the other, before the first that does not. */
  function Assembled(d: Decoder, next: u64, packets: seq<ReframedPacket>): (n: nat)
    ensures n <= |packets|
    decreases |packets|
  {
    if |packets| == 0 || AssembleOne(d, next, packets[0]).Failure? then 0
    else Assembled(d, next + 1, packets[1..]) + 1
  }

  /** How many frames of one captured packet assemble. */
  function PushAssembled(s: Session, st: PumpState, p: CapturedPacket): nat
    requires ValidSession(s)
  {
    var reframed := Push(s.format, st.pending, p).result;
    if reframed.Success? then Assembled(s.decoder.value, st.next, reframed.value) else 0
  }

  /** How many frames the turns of a drain from the i-th on assemble, the turn that fails included. */
  function DrainAssembled(s: Session, budget: nat, st: PumpState, replies: nat -> Reply, i: nat): nat
    requires ValidSession(s) && i <= budget
    decreases budget - i
  {
    if i == budget || replies(i).nextFrames.Failure? || replies(i).nextFrames.value == 0 || replies(i).packet.Failure?
      then 0
    else match replies(i).packet.value
      case None => DrainAssembled(s, budget, st, replies, i + 1)
      case Some(p) =>
        var (r, st') := AssemblerPush(s, st, p);
        PushAssembled(s, st, p) + if r.Success? then DrainAssembled(s, budget, st', replies, i + 1) else 0
  }

  /** Assembly uses up one number for each packet before the first that fails. */
  lemma {:induction false} AssembleUses(d: Decoder, next: u64, packets: seq<ReframedPacket>)
    ensures Assemble(d, next, packets).1 == next + Assembled(d, next, packets)
    ensures Assemble(d, next, packets).0.Success? <==> Assembled(d, next, packets) == |packets|
    decreases |packets|
  {
    if |packets| > 0 {
      var init, last := packets[..|packets| - 1], packets[|packets| - 1];
      AssembleUses(d, next, init);
      AssembledAppend(d, next, init, last);
      assert packets == init + [last];
      hide AssembleOne;
    }
  }

  lemma {:induction false} AssembledAppend(d: Decoder, next: u64, packets: seq<ReframedPacket>, last: ReframedPacket)
    ensures var n := Assembled(d, next, packets);
            && next + n <= U64_MAX
            && Assembled(d, next, packets + [last])
               == (if n == |packets| && AssembleOne(d, next + n, last).Success? then n + 1 else n)
    decreases |packets|
  {
    if |packets| > 0 {
      if AssembleOne(d, next, packets[0]).Success? { AssembledAppend(d, next + 1, packets[1..], last); }
      assert (packets + [last])[1..] == packets[1..] + [last];
    } else {
      assert [last][1..] == [];
    }
  }

  lemma {:induction false} PushUses(s: Session, st: PumpState, p: CapturedPacket)
    requires ValidSession(s)
    ensures var (r, st') := AssemblerPush(s, st, p);
            && st'.next == st.next + PushAssembled(s, st, p)
            && (r.Success? ==> |r.value| == PushAssembled(s, st, p))
  {
    var reframed := Push(s.format, st.pending, p).result;
    if reframed.Success? {
      AssembleUses(s.decoder.value, st.next, reframed.value);
      AssembleNumbers(s.decoder.value, st.next, reframed.value);
    }
    hide Push, Assemble, Assembled;
  }

  /**
   Succeed or fail, a drain moves the numbering by exactly the frames it assembled; a successful one hands them all
   out.
   */
  lemma {:induction false} DrainUses(
    s: Session, budget: nat, st: PumpState, signaled: bool, replies: nat -> Reply, i: nat, frames: seq<CapturedFrame>)
    requires ValidSession(s) && i <= budget
    ensures var (r, st') := Drain(s, budget, st, signaled, replies, i, frames);
            && st'.next == st.next + DrainAssembled(s, budget, st, replies, i)
            && (r.Success? ==> |r.value.frames| == |frames| + DrainAssembled(s, budget, st, replies, i))
    decreases budget - i
  {
    hide AssemblerPush, PushAssembled, ValidSession;
    if i < budget && replies(i).nextFrames.Success? && replies(i).nextFrames.value != 0 && replies(i).packet.Success? {
      match replies(i).packet.value
      case None => DrainUses(s, budget, st, signaled, replies, i + 1, frames);
      case Some(p) =>
        PushUses(s, st, p);
        var (r, st') := AssemblerPush(s, st, p);
        if r.Success? { DrainUses(s, budget, st', signaled, replies, i + 1, frames + r.value); }
    }
  }

  // ----- a pump's whole life: packets in, frames out -----

  /** The packets a drain takes from its source in turns `i` up to `n`. */
  function PacketsRead(replies: nat -> Reply, i: nat, n: nat): seq<CapturedPacket>
    requires i <= n
    decreases n - i
  {
    if i == n then []
    else (match replies(i).packet
          case Success(Some(p)) => [p]
          case _ => []) + PacketsRead(replies, i + 1, n)
  }

  /** After reading `read`, the pump has delivered exactly the assembly of their reframing. */
  ghost predicate Delivered(
    s: Session, initial: u64, read: seq<CapturedPacket>, st: PumpState, frames: seq<CapturedFrame>)
    requires ValidSession(s)
  {
    var o := Feed(s.format, read);
    && o.result.Success? && o.pending == st.pending
    && Assemble(s.decoder.value, initial, o.result.value) == (Success(frames), st.next)
  }

  lemma {:induction false} AssembleAppend(d: Decoder, next: u64, a: seq<ReframedPacket>, b: seq<ReframedPacket>)
    requires Assemble(d, next, a).0.Success?
    ensures var (ra, n) := Assemble(d, next, a);
            var (rb, m) := Assemble(d, n, b);
            Assemble(d, next, a + b) == (if rb.Success? then Success(ra.value + rb.value) else rb, m)
  {
    var (ra, n) := Assemble(d, next, a);
    if |b| == 0 {
      assert a + b == a && ra.value + [] == ra.value;
    } else {
      AssembleAppend(d, next, a, b[..|b| - 1]);
      assert (a + b)[..|a + b| - 1] == a + b[..|b| - 1];
      hide AssembleOne;
      var (rb, m) := Assemble(d, n, b[..|b| - 1]);
      if rb.Success? && AssembleOne(d, m, b[|b| - 1]).Success? {
        var frame := AssembleOne(d, m, b[|b| - 1]).value;
        assert (ra.value + rb.value) + [frame] == ra.value + (rb.value + [frame]);
      }
    }
  }

  lemma {:induction false} PushDelivers(
    s: Session, initial: u64, read: seq<CapturedPacket>, st: PumpState, frames: seq<CapturedFrame>, p: CapturedPacket)
    requires ValidSession(s) && Delivered(s, initial, read, st, frames)
    ensures var (r, st') := AssemblerPush(s, st, p);
            r.Success? ==> Delivered(s, initial, read + [p], st', frames + r.value)
  {
    var o := Push(s.format, st.pending, p);
    assert (read + [p])[..|read|] == read;
    if o.result.Success? {
      AssembleAppend(s.decoder.value, initial, Feed(s.format, read).result.value, o.result.value);
    }
    hide Push, Assemble;
  }

  /** A successful drain extends what has been delivered by exactly the packets it read. */
  lemma {:induction false} DrainDelivers(
    s: Session, budget: nat, st: PumpState, signaled: bool, replies: nat -> Reply, i: nat, frames: seq<CapturedFrame>,
    initial: u64, read: seq<CapturedPacket>, earlier: seq<CapturedFrame>)
    requires ValidSession(s) && i <= budget && Delivered(s, initial, read, st, earlier + frames)
    ensures var (r, st') := Drain(s, budget, st, signaled, replies, i, frames);
            r.Success? ==>
              && i <= r.value.packetsConsumed
              && Delivered(s, initial, read + PacketsRead(replies, i, r.value.packetsConsumed), st',
                 earlier + r.value.frames)
    decreases budget - i
  {
    hide AssemblerPush, ValidSession, Delivered;
    assert read + [] == read;
    if i < budget && replies(i).nextFrames.Success? && replies(i).nextFrames.value != 0 && replies(i).packet.Success? {
      match replies(i).packet.value
      case None =>
        DrainDelivers(s, budget, st, signaled, replies, i + 1, frames, initial, read, earlier);
        forall n | i < n ensures PacketsRead(replies, i, n) == PacketsRead(replies, i + 1, n) {
          assert [] + PacketsRead(replies, i + 1, n) == PacketsRead(replies, i + 1, n);
        }
      case Some(p) =>
        PushDelivers(s, initial, read, st, earlier + frames, p);
        var (r, st') := AssemblerPush(s, st, p);
        if r.Success? {
          assert (earlier + frames) + r.value == earlier + (frames + r.value);
          DrainDelivers(s, budget, st', signaled, replies, i + 1, frames + r.value, initial, read + [p], earlier);
          forall n | i < n ensures read + PacketsRead(replies, i, n) == (read + [p]) + PacketsRead(replies, i + 1, n) {
            assert PacketsRead(replies, i, n) == [p] + PacketsRead(replies, i + 1, n);
          }
        }
    }
  }

  // ----- when a drain succeeds -----

  /** Packets given to the assembler one after the other, up to the first it refuses. */
  function PushAll(s: Session, st: PumpState, packets: seq<CapturedPacket>)
      : (Result<seq<CapturedFrame>, AssemblyError>, PumpState)
    requires ValidSession(s)
    decreases |packets|
  {
    if |packets| == 0 then (Success([]), st)
    else
      var (r, st') := AssemblerPush(s, st, packets[0]);
      if r.Failure? then (r, st')
      else
        var (more, st'') := PushAll(s, st', packets[1..]);
        (if more.Success? then Success(r.value + more.value) else more, st'')
  }

  /** The source announces a packet at this turn, and reads it. */
  predicate Readable(reply: Reply) {
    reply.nextFrames.Success? && reply.nextFrames.value != 0 && reply.packet.Success?
  }

  /** Turns i to n - 1 read a packet each. */
  ghost predicate ReadableUpTo(replies: nat -> Reply, i: nat, n: nat) {
    i <= n && forall k :: i <= k < n ==> Readable(replies(k))
  }

  /** The loop that starts at turn i ends at turn n: the queue is empty there, or the budget is used up. */
  ghost predicate StopsAt(replies: nat -> Reply, budget: nat, i: nat, n: nat) {
    && ReadableUpTo(replies, i, n) && n <= budget
    && replies(n).nextFrames.Success? && (n == budget || replies(n).nextFrames.value == 0)
  }

  /** Turn n is the first to meet an error, after the packets before it were assembled, leaving `left`. */
  ghost predicate FailsAt(
    s: Session, st: PumpState, replies: nat -> Reply, budget: nat, i: nat, n: nat, error: PumpError, left: PumpState)
    requires ValidSession(s)
  {
    && ReadableUpTo(replies, i, n) && n <= budget
    && var (read, now) := PushAll(s, st, PacketsRead(replies, i, n));
       read.Success? && ErrorAt(s, now, replies(n), n == budget, error, left)
  }

  ghost predicate ErrorAt(s: Session, now: PumpState, reply: Reply, last: bool, error: PumpError, left: PumpState)
    requires ValidSession(s)
  {
    if reply.nextFrames.Failure? then error == Capture(reply.nextFrames.error) && left == now
    else if last || reply.nextFrames.value == 0 then false
    else if reply.packet.Failure? then error == Capture(reply.packet.error) && left == now
    else
      && reply.packet.value.Some? && error.Assembly?
      && AssemblerPush(s, now, reply.packet.value.value) == (Failure(error.why), left)
  }

  lemma {:induction false} PushAllStep(s: Session, st: PumpState, p: CapturedPacket, packets: seq<CapturedPacket>)
    requires ValidSession(s)
    ensures var (r, st') := AssemblerPush(s, st, p);
            var (more, st'') := PushAll(s, st', packets);
            PushAll(s, st, [p] + packets)
            == if r.Failure? then (r, st')
               else (if more.Success? then Success(r.value + more.value) else more, st'')
  {
    assert ([p] + packets)[1..] == packets;
    hide AssemblerPush;
  }

  /** The loop from turn i on ends at turn n with every packet assembled. */
  ghost predicate CompletesAt(s: Session, st: PumpState, replies: nat -> Reply, budget: nat, i: nat, n: nat)
    requires ValidSession(s)
  {
    StopsAt(replies, budget, i, n) && PushAll(s, st, PacketsRead(replies, i, n)).0.Success?
  }

  /** Skipping a turn that reads nothing, or assembling its packet, leads to the next turn. */
  lemma {:induction false} TurnReads(s: Session, st: PumpState, replies: nat -> Reply, i: nat, n: nat)
    requires ValidSession(s) && i < n && Readable(replies(i))
    ensures var packet := replies(i).packet.value;
            PacketsRead(replies, i, n) == (if packet.Some? then [packet.value] else []) + PacketsRead(replies, i + 1, n)
    ensures replies(i).packet.value.None? ==> PacketsRead(replies, i, n) == PacketsRead(replies, i + 1, n)
  {
    assert [] + PacketsRead(replies, i + 1, n) == PacketsRead(replies, i + 1, n);
  }

  /** How a drain ends: at a turn n, completely, or with the first error it meets. */
  lemma {:induction false} DrainEnds(
    s: Session, budget: nat, st: PumpState, signaled: bool, replies: nat -> Reply, i: nat, frames: seq<CapturedFrame>)
    returns (n: nat)
    requires ValidSession(s) && i <= budget
    ensures var (r, left) := Drain(s, budget, st, signaled, replies, i, frames);
            && i <= n
            && (r.Failure? ==> FailsAt(s, st, replies, budget, i, n, r.error, left))
            && (r.Success? ==>
                  && CompletesAt(s, st, replies, budget, i, n)
                  && var (read, now) := PushAll(s, st, PacketsRead(replies, i, n));
                     && left == now
                     && r.value == CaptureDrain(signaled, n, frames + read.value, replies(n).nextFrames.value == 0,
                                                replies(n).nextFrames.value != 0))
    decreases budget - i
  {
    hide AssemblerPush, ValidSession;
    n := i;
    assert frames + [] == frames && PushAll(s, st, PacketsRead(replies, i, i)) == (Success([]), st);
    if i < budget && Readable(replies(i)) {
      match replies(i).packet.value
      case None =>
        n := DrainEnds(s, budget, st, signaled, replies, i + 1, frames);
        TurnReads(s, st, replies, i, n);
      case Some(p) =>
        var (r, now) := AssemblerPush(s, st, p);
        if r.Success? {
          n := DrainEnds(s, budget, now, signaled, replies, i + 1, frames + r.value);
          TurnReads(s, st, replies, i, n);
          PushAllStep(s, st, p, PacketsRead(replies, i + 1, n));
          var more := PushAll(s, now, PacketsRead(replies, i + 1, n)).0;
          if more.Success? { assert (frames + r.value) + more.value == frames + (r.value + more.value); }
        }
    }
  }

  lemma {:induction false} CompletionDrains(
    s: Session, budget: nat, st: PumpState, signaled: bool, replies: nat -> Reply, i: nat, frames: seq<CapturedFrame>,
      n: nat)
    requires ValidSession(s) && i <= budget && CompletesAt(s, st, replies, budget, i, n)
    ensures Drain(s, budget, st, signaled, replies, i, frames).0.Success?
    decreases budget - i
  {
    hide AssemblerPush, ValidSession;
    if i < n {
      assert Readable(replies(i));
      TurnReads(s, st, replies, i, n);
      match replies(i).packet.value
      case None => CompletionDrains(s, budget, st, signaled, replies, i + 1, frames, n);
      case Some(p) =>
        PushAllStep(s, st, p, PacketsRead(replies, i + 1, n));
        var (r, now) := AssemblerPush(s, st, p);
        CompletionDrains(s, budget, now, signaled, replies, i + 1, frames + r.value, n);
    }
  }

  /**
   A drain succeeds exactly when its loop ends, by an empty queue or the budget, before any error of the source, and
   the assembler takes every packet read. Then it hands out their frames in order and reports the queue as it is;
   otherwise it fails with the first error met.
   */
  lemma {:induction false} DrainSucceeds(s: Session, budget: nat, st: PumpState, signaled: bool, replies: nat -> Reply)
    requires ValidSession(s)
    ensures var (r, left) := Drain(s, budget, st, signaled, replies, 0, []);
            && (r.Success? <==> exists n: nat :: CompletesAt(s, st, replies, budget, 0, n))
            && (r.Success? ==>
                  var n := r.value.packetsConsumed;
                  && CompletesAt(s, st, replies, budget, 0, n)
                  && var (read, now) := PushAll(s, st, PacketsRead(replies, 0, n));
                     && left == now
                     && r.value == CaptureDrain(signaled, n, read.value, replies(n).nextFrames.value == 0,
                                                replies(n).nextFrames.value != 0))
            && (r.Failure? ==> exists n: nat :: FailsAt(s, st, replies, budget, 0, n, r.error, left))
  {
    var n := DrainEnds(s, budget, st, signaled, replies, 0, []);
    var (r, left) := Drain(s, budget, st, signaled, replies, 0, []);
    hide Drain, PushAll, PacketsRead, StopsAt, ValidSession, FailsAt;
    if r.Success? {
      var read := PushAll(s, st, PacketsRead(replies, 0, n)).0;
      assert [] + read.value == read.value;
    } else {
      forall m: nat ensures !CompletesAt(s, st, replies, budget, 0, m) {
        if CompletesAt(s, st, replies, budget, 0, m) { CompletionDrains(s, budget, st, signaled, replies, 0, [], m); }
      }
    }
  }

  /** One visit to a pump: how the wait ends and what the source would answer. */
  datatype Visit = Visit(wait: Result<bool, CaptureError>, replies: nat -> Reply)

  datatype Life = Life(ok: bool, read: seq<CapturedPacket>, frames: seq<CapturedFrame>, st: PumpState)

  /** A pump visited until it fails. */
  function Visits(s: Session, budget: nat, initial: u64, visits: seq<Visit>): Life
    requires ValidSession(s)
  {
    if |visits| == 0 then Life(true, [], [], PumpState([], initial))
    else
      var life := Visits(s, budget, initial, visits[..|visits| - 1]);
      var v := visits[|visits| - 1];
      var (r, st) := WaitAndDrain(s, budget, life.st, v.wait, v.replies);
      if !life.ok then life
      else if r.Failure? then Life(false, life.read, life.frames, st)
      else Life(true, life.read + PacketsRead(v.replies, 0, r.value.packetsConsumed), life.frames + r.value.frames, st)
  }

  /**
   End to end: as long as no visit failed, all frames a pump has handed out are the assembly of the reference
   reframing of all packets it has read, in order, numbered from its initial sequence.
   */
  lemma {:induction false} PumpDeliversReference(s: Session, budget: nat, initial: u64, visits: seq<Visit>)
    requires ValidSession(s) && Visits(s, budget, initial, visits).ok
    ensures var life := Visits(s, budget, initial, visits);
            && AllWellFormed(s.format, life.read)
            && Assemble(s.decoder.value, initial, Reference(s.format, life.read)) ==
               (Success(life.frames), life.st.next)
            && Numbered(life.frames, initial, life.st.next)
  {
    VisitsDeliver(s, budget, initial, visits);
    var life := Visits(s, budget, initial, visits);
    FedPacketsWellFormed(s.format, life.read);
    StreamEquality(s.format, life.read);
    AssembleNumbers(s.decoder.value, initial, Reference(s.format, life.read));
    hide Visits, Feed, Reference, Assemble;
  }

  lemma {:induction false} FedPacketsWellFormed(f: Format, packets: seq<CapturedPacket>)
    requires ValidFormat(f) && Feed(f, packets).result.Success?
    ensures AllWellFormed(f, packets)
  {
    if |packets| > 0 { FedPacketsWellFormed(f, packets[..|packets| - 1]); }
  }

  lemma {:induction false} VisitsDeliver(s: Session, budget: nat, initial: u64, visits: seq<Visit>)
    requires ValidSession(s) && Visits(s, budget, initial, visits).ok
    ensures var life := Visits(s, budget, initial, visits);
            Delivered(s, initial, life.read, life.st, life.frames)
  {
    if |visits| > 0 {
      VisitsDeliver(s, budget, initial, visits[..|visits| - 1]);
      var life := Visits(s, budget, initial, visits[..|visits| - 1]);
      var v := visits[|visits| - 1];
      assert life.frames + [] == life.frames && life.read + [] == life.read;
      DrainDelivers(s, budget, life.st, true, v.replies, 0, [], initial, life.read, life.frames);
      hide Drain, Delivered;
      var (r, st) := WaitAndDrain(s, budget, life.st, v.wait, v.replies);
      assert r.Success?;
      if v.wait == Success(false) {
        assert PacketsRead(v.replies, 0, 0) == [];
      } else {
        assert (r, st) == Drain(s, budget, life.st, true, v.replies, 0, []);
        var more := PacketsRead(v.replies, 0, r.value.packetsConsumed);
        assert Visits(s, budget, initial, visits) == Life(true, life.read + more, life.frames + r.value.frames, st);
      }
    } else {
      assert Delivered(s, initial, [], PumpState([], initial), []);
    }
  }

  // ----- the runtime -----

  /** Between public calls the runtime holds a pump exactly while it is running. */
  ghost predicate RuntimeInv(s: Runtime) {
    && (s.pump.Some? <==> s.controller.state.Running?)
    && !s.controller.state.Opening? && !s.controller.state.Bypassed?
    && (s.pump.Some? ==> ValidSession(s.pump.value.session) && s.pump.value.st.next == s.next)
  }

  lemma {:induction false} MaybeOpenKeepsInv(cfg: Config, s: Runtime, trigger: StreamEvent, o: OpenOutcome)
    requires RuntimeInv(s) && GoodOpening(o) && (trigger.StartRequested? || trigger.RetryTimerElapsed?)
    ensures RuntimeInv(MaybeOpen(cfg, s, trigger, o).0) && MaybeOpen(cfg, s, trigger, o).0.next == s.next
  {
  }

  lemma {:induction false} PollKeepsInv(
    cfg: Config, s: Runtime, wait: Result<bool, CaptureError>, replies: nat -> Reply)
    requires RuntimeInv(s)
    ensures var (u, r) := PollStep(cfg, s, wait, replies);
            && RuntimeInv(u) && s.next <= u.next
            && (r.Failure? <==> !s.controller.state.Running?)
            && (r.Failure? ==> u == s && r.error == NotRunning(s.controller.state))
            && (r.Success? && r.value.drain.Some? ==> Numbered(r.value.drain.value.frames, s.next, u.next))
  {
    hide WaitAndDrain, ValidSession;
    if s.pump.Some? { WaitNumbers(s.pump.value.session, cfg.maxPacketsPerDrain, s.pump.value.st, wait, replies); }
  }

  /** Every public call keeps the invariant, never turns the numbering back, and drains consecutively. */
  lemma {:induction false} StepKeepsInv(cfg: Config, s: Runtime, call: Call)
    requires RuntimeInv(s) && GoodCall(call)
    ensures var (u, r) := Step(cfg, s, call);
            && RuntimeInv(u) && s.next <= u.next
            && (r.Failure? <==> call.Poll? && !s.controller.state.Running?)
            && (r.Failure? ==> u == s && r.error == NotRunning(s.controller.state))
            && (r.Success? && r.value.drain.Some? ==> Numbered(r.value.drain.value.frames, s.next, u.next))
  {
    match call
    case Start(o) => MaybeOpenKeepsInv(cfg, s, StartRequested, o); hide MaybeOpen;
    case RetryTimer(o) => MaybeOpenKeepsInv(cfg, s, RetryTimerElapsed, o); hide MaybeOpen;
    case Poll(wait, replies) => PollKeepsInv(cfg, s, wait, replies); hide PollStep;
    case _ =>
  }

  // ----- what each call does -----

  /** Only a lost device, lost resources and a stopped audio service are worth another try; each has its own fault. */
  lemma {:induction false} FaultTable(e: PumpError)
    ensures var (fault, retryable) := Classify(e);
            && (retryable <==>
                  && e.Capture?
                  && (e.error.DeviceInvalidatedError? || e.error.ResourcesInvalidated? ||
                    e.error.AudioServiceNotRunning?))
            && (fault.DeviceInvalidated? <==>
               e.Capture? && (e.error.DeviceInvalidatedError? || e.error.ResourcesInvalidated?))
            && (fault.DeviceUnavailable? <==> e.Capture? && e.error.AudioServiceNotRunning?)
            && (fault.Backend? <==> !retryable)
  {
  }

  /**
   Why a session is refused: unknown samples, then a block size they do not have, then no bytes or no frames per
   packet.
   */
  lemma {:induction false} RefusalTable(s: Session)
    ensures var mismatch := s.decoder.Success? && s.decoder.value.frameBytes != s.format.blockAlign;
            && (Refusal(s).None? <==>
                  s.decoder.Success? && !mismatch && s.format.blockAlign != 0 && s.format.targetFrames != 0)
            && (s.decoder.Failure? ==> Refusal(s) == Some(Decode(s.decoder.error)))
            && (mismatch ==> Refusal(s) == Some(BlockAlignMismatch(s.format.blockAlign, s.decoder.value.frameBytes)))
            && (s.decoder.Success? && !mismatch && s.format.blockAlign == 0 ==>
               Refusal(s) == Some(Reframe(BlockAlignZero)))
            && (s.decoder.Success? && !mismatch && s.format.blockAlign != 0 && s.format.targetFrames == 0 ==>
                  Refusal(s) == Some(Reframe(TargetFrameCountZero)))
  {
  }

  /** An opening that yields a running pump. */
  predicate Opens(cfg: Config, o: OpenOutcome) {
    cfg.maxPacketsPerDrain > 0 && o.Opened? && Refusal(o.session).None? && o.start.Success?
  }

  /** What a failed opening reports, if anything, with the fault and whether it may pass. */
  function OpeningFailure(cfg: Config, o: OpenOutcome): (Option<PumpError>, StreamFault, bool)
    requires !Opens(cfg, o)
  {
    if o.NoDevice? then (None, DeviceUnavailable, true)
    else
      var e: PumpError :=
        if o.OpenError? then Capture(o.error)
        else if cfg.maxPacketsPerDrain == 0 then PacketBudgetZero
        else if Refusal(o.session).Some? then Assembly(Refusal(o.session).value)
        else Capture(o.start.error);
      (Some(e), Classify(e).0, Classify(e).1)
  }

  /** The calls that open: a start while stopped, a retry while recovering. */
  predicate Ordered(s: Runtime, call: Call) {
    (s.controller.state.Stopped? && call.Start?) || (s.controller.state.Recovering? && call.RetryTimer?)
  }

  /**
   A start while stopped or a retry while recovering asks the opener once. If that yields a pump the runtime runs with
   it, numbered on from where the last one stopped; otherwise it recovers or gives up, and reports why.
   */
  lemma {:induction false} OpeningCall(cfg: Config, s: Runtime, call: Call)
    requires RuntimeInv(s) && Ordered(s, call)
    ensures var (u, r) := Step(cfg, s, call);
            var failures := if call.Start? then 0 else s.controller.reopenFailures;
            && r.Success? && |r.value.transitions| == 2 && r.value.drain.None? && u.next == s.next
            && r.value.transitions[0] == StreamTransition(s.controller.state, Opening, OpenDevice, failures)
            && if Opens(cfg, call.outcome) then
                 && u == Runtime(Controller(Running, 0), Some(Pump(call.outcome.session, PumpState([], s.next))),
                    s.next)
                 && r.value.transitions[1] == StreamTransition(Opening, Running, NoAction, 0) && r.value.error.None?
               else
                 var (error, fault, retryable) := OpeningFailure(cfg, call.outcome);
                 && u.pump.None? && r.value.error == error
                 && var order := r.value.transitions[1].action;
                    if retryable && failures + 1 < cfg.policy.maxReopenFailures then
                      && u.controller == Controller(Recovering, failures + 1)
                      && order == ScheduleRetry(DelayForFailure(cfg.policy, failures + 1))
                    else u.controller.state.Failed? && order == SurfaceFailure(fault)
  {
    hide Classify, DelayForFailure, Refusal;
  }

  /** A start or a retry in any other state changes nothing and orders nothing. */
  lemma {:induction false} UncalledForOpening(cfg: Config, s: Runtime, call: Call)
    requires RuntimeInv(s) && (call.Start? || call.RetryTimer?) && !Ordered(s, call)
    ensures var (u, r) := Step(cfg, s, call);
            && u == s && r.Success? && r.value.drain.None? && r.value.error.None?
            && |r.value.transitions| == 1 && r.value.transitions[0].action.NoAction?
  {
  }

  /**
   A poll of a running runtime hands out the pump's drain unchanged and keeps the pump. If the drain fails the pump is
   dropped, its numbering kept, the error reported, and the runtime recovers at once or gives up.
   */
  lemma {:induction false} PollCall(cfg: Config, s: Runtime, wait: Result<bool, CaptureError>, replies: nat -> Reply)
    requires RuntimeInv(s) && s.controller.state.Running?
    ensures var pump := s.pump.value;
            var (drained, st) := WaitAndDrain(pump.session, cfg.maxPacketsPerDrain, pump.st, wait, replies);
            var (u, r) := Step(cfg, s, Poll(wait, replies));
            && r.Success? && u.next == st.next
            && if drained.Success? then
                 && r.value == Update([], Some(drained.value), None)
                 && u == Runtime(s.controller, Some(Pump(pump.session, st)), st.next)
               else
                 var (fault, retryable) := Classify(drained.error);
                 && r.value.drain.None? && r.value.error == Some(drained.error) && u.pump.None?
                 && |r.value.transitions| == 1
                 && var order := r.value.transitions[0].action;
                    if retryable then
                      && u.controller == Controller(Recovering, 0)
                      && order == ScheduleRetry(cfg.policy.initialBackoffMs)
                    else u.controller == Controller(StreamState.Failed, 0) && order == SurfaceFailure(fault)
    ensures wait == Success(false) ==>
              Step(cfg, s, Poll(wait, replies)) ==
                (s, Success(Update([], Some(CaptureDrain(false, 0, [], true, false)), None)))
  {
    hide Classify, Drain, ValidSession;
  }

  /** A notification or a stop drops the pump and keeps its numbering; a stop always ends stopped. */
  lemma {:induction false} EndingCall(cfg: Config, s: Runtime, call: Call)
    requires RuntimeInv(s) && (call.NotifyInvalidated? || call.Stop?)
    ensures var (u, r) := Step(cfg, s, call);
            && r.Success? && |r.value.transitions| == 1 && r.value.drain.None? && u.pump.None? && u.next == s.next
            && var order := r.value.transitions[0].action;
            && (call.Stop? ==>
                  && u.controller.state.Stopped? && (order.StopDevice? <==> !s.controller.state.Stopped?)
                  && r.value.error ==
                     (if s.pump.Some? && call.stopped.Failure? then Some(Capture(call.stopped.error)) else None))
            && (call.NotifyInvalidated? ==>
                  && r.value.error.None?
                  && if s.controller.state.Running? then
                       u.controller == Controller(Recovering, 0) && order == ScheduleRetry(cfg.policy.initialBackoffMs)
                     else u.controller == s.controller && order.NoAction?)
  {
  }

  /** The runtime after calls from any state the invariant allows. */
  ghost function CallsFrom(cfg: Config, s: Runtime, calls: seq<Call>): (u: Runtime)
    requires RuntimeInv(s) && GoodCalls(calls)
    ensures RuntimeInv(u)
  {
    if |calls| == 0 then s
    else
      var before := CallsFrom(cfg, s, calls[..|calls| - 1]);
      StepKeepsInv(cfg, before, calls[|calls| - 1]);
      Step(cfg, before, calls[|calls| - 1]).0
  }

  /** A retry whose opening fails with a fault that may pass. */
  predicate PassingFailure(cfg: Config, call: Call) {
    call.RetryTimer? && !Opens(cfg, call.outcome) && OpeningFailure(cfg, call.outcome).2
  }

  lemma {:induction false} RetriesGoOn(cfg: Config, s: Runtime, calls: seq<Call>)
    requires RuntimeInv(s) && s.controller.state.Recovering? && GoodCalls(calls)
    requires forall i :: 0 <= i < |calls| ==> PassingFailure(cfg, calls[i])
    requires s.controller.reopenFailures + |calls| < cfg.policy.maxReopenFailures
    ensures CallsFrom(cfg, s, calls) ==
            Runtime(Controller(Recovering, s.controller.reopenFailures + |calls|), None, s.next)
  {
    if |calls| > 0 {
      RetriesGoOn(cfg, s, calls[..|calls| - 1]);
      OpeningCall(cfg, CallsFrom(cfg, s, calls[..|calls| - 1]), calls[|calls| - 1]);
    }
    hide Step, Classify, OpeningFailure, Opens;
  }

  /**
   A recovering runtime comes back: after any retries that fail with faults that may pass, short of the permitted
   number, one retry that opens leaves it running with a pump that numbers on.
   */
  lemma {:induction false} RetriesReopen(cfg: Config, s: Runtime, calls: seq<Call>, last: Call)
    requires RuntimeInv(s) && s.controller.state.Recovering? && GoodCalls(calls) && GoodCall(last)
    requires forall i :: 0 <= i < |calls| ==> PassingFailure(cfg, calls[i])
    requires s.controller.reopenFailures + |calls| < cfg.policy.maxReopenFailures
    requires last.RetryTimer? && Opens(cfg, last.outcome)
    ensures CallsFrom(cfg, s, calls + [last])
         == Runtime(Controller(Running, 0), Some(Pump(last.outcome.session, PumpState([], s.next))), s.next)
  {
    RetriesGoOn(cfg, s, calls);
    OpeningCall(cfg, CallsFrom(cfg, s, calls), last);
    assert (calls + [last])[..|calls|] == calls;
    hide Step, RuntimeInv;
  }

  function ObserveFrom(e: Episode, transitions: seq<StreamTransition>): Episode
    decreases |transitions|
  {
    if |transitions| == 0 then e else ObserveFrom(Observe(e, transitions[0]), transitions[1..])
  }

  function Transitions(r: Result<Update, RuntimeError>): seq<StreamTransition> {
    if r.Success? then r.value.transitions else []
  }

  lemma {:induction false} OneTransition(e: Episode, t: StreamTransition)
    ensures ObserveFrom(e, [t]) == Observe(e, t)
  {
    assert [t][1..] == [];
  }

  lemma {:induction false} TwoTransitions(e: Episode, t: StreamTransition, v: StreamTransition)
    ensures ObserveFrom(e, [t, v]) == Observe(Observe(e, t), v)
  {
    assert [t, v][1..] == [v];
    OneTransition(Observe(e, t), v);
  }

  lemma {:induction false} MaybeOpenKeepsEpisode(
    cfg: Config, s: Runtime, e: Episode, trigger: StreamEvent, o: OpenOutcome)
    requires ValidPolicy(cfg.policy) && EpisodeInv(cfg.policy, s.controller, e)
    ensures var (u, update) := MaybeOpen(cfg, s, trigger, o);
            EpisodeInv(cfg.policy, u.controller, ObserveFrom(e, update.transitions))
  {
    var t := TransitionOf(cfg.policy, s.controller, trigger);
    var c := After(cfg, s.controller, trigger);
    ApplyKeepsEpisode(cfg.policy, s.controller, e, trigger);
    var event := OpenEvent(OpenPump(cfg, o, s.next));
    ApplyKeepsEpisode(cfg.policy, c, Observe(e, t), event);
    OneTransition(e, t);
    TwoTransitions(e, t, TransitionOf(cfg.policy, c, event));
    hide EpisodeInv, Apply, Observe, ObserveFrom, TransitionOf, OpenEvent, OpenPump;
  }

  lemma {:induction false} StepKeepsEpisode(cfg: Config, s: Runtime, e: Episode, call: Call)
    requires ValidPolicy(cfg.policy) && EpisodeInv(cfg.policy, s.controller, e) && RuntimeInv(s)
    ensures var (u, r) := Step(cfg, s, call);
            EpisodeInv(cfg.policy, u.controller, ObserveFrom(e, Transitions(r)))
  {
    hide EpisodeInv, Apply, Observe, ObserveFrom, TransitionOf, MaybeOpen, WaitAndDrain, ValidSession, ValidPolicy;
    assert ObserveFrom(e, []) == e by { NoTransition(e); }
    match call
    case Start(o) => MaybeOpenKeepsEpisode(cfg, s, e, StartRequested, o);
    case RetryTimer(o) => MaybeOpenKeepsEpisode(cfg, s, e, RetryTimerElapsed, o);
    case Poll(wait, replies) =>
      if s.pump.Some? {
        var (r, st) := WaitAndDrain(s.pump.value.session, cfg.maxPacketsPerDrain, s.pump.value.st, wait, replies);
        if r.Failure? { OneEvent(cfg, s.controller, e, StreamFailed(Classify(r.error).0, Classify(r.error).1)); }
      }
    case NotifyInvalidated => OneEvent(cfg, s.controller, e, DeviceLost);
    case Stop(_) => OneEvent(cfg, s.controller, e, StopRequested);
  }

  lemma {:induction false} NoTransition(e: Episode)
    ensures ObserveFrom(e, []) == e
  {
  }

  lemma {:induction false} OneEvent(cfg: Config, c: Controller, e: Episode, event: StreamEvent)
    requires ValidPolicy(cfg.policy) && EpisodeInv(cfg.policy, c, e)
    ensures EpisodeInv(cfg.policy, After(cfg, c, event), ObserveFrom(e, [TransitionOf(cfg.policy, c, event)]))
  {
    ApplyKeepsEpisode(cfg.policy, c, e, event);
    OneTransition(e, TransitionOf(cfg.policy, c, event));
    hide EpisodeInv, Apply, Observe, ObserveFrom, TransitionOf;
  }

  /** Everything a run of public calls shows its caller. */
  datatype Record = Record(
    s: Runtime, frames: seq<CapturedFrame>, episode: Episode, results: seq<Result<Update, RuntimeError>>)

  predicate GoodCalls(calls: seq<Call>) { forall i :: 0 <= i < |calls| ==> GoodCall(calls[i]) }

  function DrainedFrames(r: Result<Update, RuntimeError>): seq<CapturedFrame> {
    if r.Success? && r.value.drain.Some? then r.value.drain.value.frames else []
  }

  ghost function RunCalls(cfg: Config, initial: u64, calls: seq<Call>): (h: Record)
    requires GoodCalls(calls)
    ensures RuntimeInv(h.s)
  {
    if |calls| == 0 then Record(Runtime(INITIAL_CONTROLLER, None, initial), [], Episode(0, []), [])
    else
      var h := RunCalls(cfg, initial, calls[..|calls| - 1]);
      StepKeepsInv(cfg, h.s, calls[|calls| - 1]);
      var (u, r) := Step(cfg, h.s, calls[|calls| - 1]);
      Record(u, h.frames + DrainedFrames(r), ObserveFrom(h.episode, Transitions(r)), h.results + [r])
  }

  /** Sequence numbers rise strictly over all drains of a run, across every reopening, and none is handed out twice. */
  lemma {:induction false} SequencesNeverReused(cfg: Config, initial: u64, calls: seq<Call>)
    requires GoodCalls(calls)
    ensures var h := RunCalls(cfg, initial, calls);
            && initial <= h.s.next
            && (forall i :: 0 <= i < |h.frames| ==> initial <= h.frames[i].sequence < h.s.next)
            && (forall i, j :: 0 <= i < j < |h.frames| ==> h.frames[i].sequence < h.frames[j].sequence)
  {
    if |calls| > 0 {
      SequencesNeverReused(cfg, initial, calls[..|calls| - 1]);
      var h := RunCalls(cfg, initial, calls[..|calls| - 1]);
      StepKeepsInv(cfg, h.s, calls[|calls| - 1]);
      hide Step, RuntimeInv, GoodCall;
    }
  }

  /** The frames a call assembles and never hands out: all of them when its drain fails, for whatever reason. */
  ghost function LostBy(cfg: Config, s: Runtime, call: Call): nat
    requires RuntimeInv(s)
  {
    if call.Poll? && s.pump.Some? && call.wait == Success(true)
       && Drain(s.pump.value.session, cfg.maxPacketsPerDrain, s.pump.value.st, true, call.replies, 0, []).0.Failure?
    then DrainAssembled(s.pump.value.session, cfg.maxPacketsPerDrain, s.pump.value.st, call.replies, 0)
    else 0
  }

  /** The frames lost by the n-th call of a run. */
  ghost function LostAt(cfg: Config, initial: u64, calls: seq<Call>, n: nat): nat
    requires GoodCalls(calls) && n < |calls|
  {
    LostBy(cfg, RunCalls(cfg, initial, calls[..n]).s, calls[n])
  }

  ghost function LostUpTo(cfg: Config, initial: u64, calls: seq<Call>, n: nat): nat
    requires GoodCalls(calls) && n <= |calls|
  {
    if n == 0 then 0 else LostUpTo(cfg, initial, calls, n - 1) + LostAt(cfg, initial, calls, n - 1)
  }

  /** Each call moves the numbering by the frames it hands out and the frames it loses. */
  lemma {:induction false} StepUses(cfg: Config, s: Runtime, call: Call)
    requires RuntimeInv(s) && GoodCall(call)
    ensures var (u, r) := Step(cfg, s, call); u.next == s.next + |DrainedFrames(r)| + LostBy(cfg, s, call)
  {
    hide Drain, DrainAssembled, ValidSession, Apply, TransitionOf;
    match call
    case Start(o) => MaybeOpenKeepsInv(cfg, s, StartRequested, o); hide MaybeOpen;
    case RetryTimer(o) => MaybeOpenKeepsInv(cfg, s, RetryTimerElapsed, o); hide MaybeOpen;
    case Poll(wait, replies) =>
      if s.pump.Some? {
        DrainUses(s.pump.value.session, cfg.maxPacketsPerDrain, s.pump.value.st, true, replies, 0, []);
      }
    case _ =>
  }

  lemma {:induction false} LostOfPrefix(cfg: Config, initial: u64, calls: seq<Call>, n: nat)
    requires GoodCalls(calls) && |calls| > 0 && n < |calls|
    ensures LostUpTo(cfg, initial, calls[..|calls| - 1], n) == LostUpTo(cfg, initial, calls, n)
  {
    if n > 0 {
      LostOfPrefix(cfg, initial, calls, n - 1);
      assert calls[..|calls| - 1][..n - 1] == calls[..n - 1];
    }
    hide RunCalls, LostBy;
  }

  lemma {:induction false} NothingLost(cfg: Config, initial: u64, calls: seq<Call>, n: nat)
    requires GoodCalls(calls) && n <= |calls|
    ensures LostUpTo(cfg, initial, calls, n) == 0 <==> forall k :: 0 <= k < n ==> LostAt(cfg, initial, calls, k) == 0
  {
    hide LostAt, RunCalls, GoodCalls;
    if n > 0 { NothingLost(cfg, initial, calls, n - 1); }
  }

  lemma {:induction false} NumbersUsed(cfg: Config, initial: u64, calls: seq<Call>)
    requires GoodCalls(calls)
    ensures var h := RunCalls(cfg, initial, calls);
            h.s.next == initial + |h.frames| + LostUpTo(cfg, initial, calls, |calls|)
  {
    if |calls| > 0 {
      var earlier := calls[..|calls| - 1];
      NumbersUsed(cfg, initial, earlier);
      LostOfPrefix(cfg, initial, calls, |calls| - 1);
      StepUses(cfg, RunCalls(cfg, initial, earlier).s, calls[|calls| - 1]);
    }
    hide Step, RuntimeInv, GoodCall, LostBy, ObserveFrom;
  }

  lemma {:induction false} NumberedUnlessLost(cfg: Config, initial: u64, calls: seq<Call>)
    requires GoodCalls(calls) && LostUpTo(cfg, initial, calls, |calls|) == 0
    ensures var h := RunCalls(cfg, initial, calls); Numbered(h.frames, initial, h.s.next)
  {
    if |calls| > 0 {
      var earlier, last := calls[..|calls| - 1], calls[|calls| - 1];
      LostOfPrefix(cfg, initial, calls, |calls| - 1);
      NumberedUnlessLost(cfg, initial, earlier);
      NumbersUsed(cfg, initial, earlier);
      NumbersUsed(cfg, initial, calls);
      var h := RunCalls(cfg, initial, earlier);
      StepKeepsInv(cfg, h.s, last);
      hide Step, RuntimeInv, GoodCall, LostUpTo, LostAt, ObserveFrom, Transitions;
      var (u, r) := Step(cfg, h.s, last);
      if r.Success? && r.value.drain.Some? { assert Numbered(r.value.drain.value.frames, h.s.next, u.next); }
    }
  }

  /**
   Over every run the numbers used up are those handed out and those lost in failing drains, so the frames handed
   out are numbered without a gap exactly when no failing drain had assembled a frame.
   */
  lemma {:induction false} GapsAreExact(cfg: Config, initial: u64, calls: seq<Call>)
    requires GoodCalls(calls)
    ensures var h := RunCalls(cfg, initial, calls);
            && h.s.next == initial + |h.frames| + LostUpTo(cfg, initial, calls, |calls|)
            && (Numbered(h.frames, initial, h.s.next) <==> forall n :: 0 <= n < |calls| ==>
               LostAt(cfg, initial, calls, n) == 0)
  {
    NumbersUsed(cfg, initial, calls);
    NothingLost(cfg, initial, calls, |calls|);
    if LostUpTo(cfg, initial, calls, |calls|) == 0 { NumberedUnlessLost(cfg, initial, calls); }
    hide RunCalls, LostUpTo, LostAt;
  }

  const BYTE_SESSION := Session(Format(1, 1, 1), Success(Decoder(1, bytes => Success([]), samples => None)))

  /** One one-frame packet, then a read error. */
  function PacketThenError(turn: nat): Reply {
    if turn == 0 then Reply(Success(1), Success(Some(CapturedPacket(1, [7], Flags(false, false, false), 0, 0))))
    else Reply(Failure(OtherCaptureError(1)), Success(None))
  }

  /** Such a run: a packet is read and assembled, the next read fails, and number 0 is never handed out. */
  lemma {:induction false} ReadErrorLosesFrame(cfg: Config)
    requires cfg.maxPacketsPerDrain > 0
    ensures var calls := [Start(Opened(BYTE_SESSION, Success(()))), Poll(Success(true), PacketThenError)];
            GoodCalls(calls) && RunCalls(cfg, 0, calls).frames == [] && RunCalls(cfg, 0, calls).s.next == 1
  {
    var calls := [Start(Opened(BYTE_SESSION, Success(()))), Poll(Success(true), PacketThenError)];
    assert calls[..1][..0] == [] && calls[..2 - 1] == calls[..1];
    PumpOpens(cfg);
    DrainFails(cfg.maxPacketsPerDrain);
    hide Drain, MaybeOpen, ValidSession;
    assert RunCalls(cfg, 0, calls[..1]).s ==
           Runtime(Controller(Running, 0), Some(Pump(BYTE_SESSION, PumpState([], 0))), 0);
  }

  lemma {:induction false} PumpOpens(cfg: Config)
    requires cfg.maxPacketsPerDrain > 0
    ensures MaybeOpen(cfg, Runtime(INITIAL_CONTROLLER, None, 0), StartRequested, Opened(BYTE_SESSION, Success(()))).0
         == Runtime(Controller(Running, 0), Some(Pump(BYTE_SESSION, PumpState([], 0))), 0)
    ensures MaybeOpen(cfg, Runtime(INITIAL_CONTROLLER, None, 0), StartRequested,
            Opened(BYTE_SESSION, Success(()))).1.drain.None?
  {
  }

  lemma {:induction false} DrainFails(budget: nat)
    requires 0 < budget
    ensures var (r, st) := Drain(BYTE_SESSION, budget, PumpState([], 0), true, PacketThenError, 0, []);
            r.Failure? && st.next == 1
  {
    PacketIsAssembled();
    hide AssemblerPush;
    var (r, st) := AssemblerPush(BYTE_SESSION, PumpState([], 0), PacketThenError(0).packet.value.value);
    assert Drain(BYTE_SESSION, budget, st, true, PacketThenError, 1, r.value).0.Failure?;
  }

  lemma {:induction false} PacketIsAssembled()
    ensures var (r, st) := AssemblerPush(BYTE_SESSION, PumpState([], 0), PacketThenError(0).packet.value.value);
            r.Success? && st.next == 1
  {
    var p := PacketThenError(0).packet.value.value;
    var f := BYTE_SESSION.format;
    assert ByteLen(1, 1) == ByteLen(0, 1) + 1;
    var samples := [] + SamplesFrom(f, p, 0);
    assert |samples| == 1 && Emit(f, samples[1..]) == Outcome(Success([]), samples[1..]);
    assert Emit(f, samples).result == Success([Merge(samples[..1])] + []);
    var one := [Merge(samples[..1])];
    assert one + [] == one && one[..0] == [];
    assert Assemble(BYTE_SESSION.decoder.value, 0, one[..0]) == (Success([]), 0);
  }

  predicate OnlyNotRunning(results: seq<Result<Update, RuntimeError>>) {
    forall i :: 0 <= i < |results| && results[i].Failure? ==> results[i].error.NotRunning?
  }

  /** The only error a call ever returns is `NotRunning`: a running runtime is never missing its pump. */
  lemma {:induction false} PumpNeverMissing(cfg: Config, initial: u64, calls: seq<Call>)
    requires GoodCalls(calls)
    ensures var h := RunCalls(cfg, initial, calls);
            OnlyNotRunning(h.results)
  {
    if |calls| > 0 {
      PumpNeverMissing(cfg, initial, calls[..|calls| - 1]);
      var h := RunCalls(cfg, initial, calls[..|calls| - 1]);
      StepKeepsInv(cfg, h.s, calls[|calls| - 1]);
      hide Step, RuntimeInv, GoodCall;
    } else {
      assert RunCalls(cfg, initial, calls).results == [];
    }
  }

  /**
   Over every run, a recovery episode asks the opener at most `maxReopenFailures` times, schedules non-decreasing
   delays within the policy, and leaves failures to spare whenever the runtime is still recovering.
   */
  lemma {:induction false} RuntimeRecoveryIsBounded(cfg: Config, initial: u64, calls: seq<Call>)
    requires GoodCalls(calls) && ValidPolicy(cfg.policy)
    ensures var h := RunCalls(cfg, initial, calls);
            && EpisodeInv(cfg.policy, h.s.controller, h.episode)
            && Bounded(cfg.policy, h.episode)
            && (h.s.controller.state.Recovering? ==> h.s.controller.reopenFailures < cfg.policy.maxReopenFailures)
            && (h.s.pump.Some? <==> h.s.controller.state.Running?) && !h.s.controller.state.Opening?
            && !h.s.controller.state.Bypassed?
  {
    if |calls| == 0 {
      FreshEpisode(cfg.policy);
    } else {
      RuntimeRecoveryIsBounded(cfg, initial, calls[..|calls| - 1]);
      var h := RunCalls(cfg, initial, calls[..|calls| - 1]);
      StepKeepsEpisode(cfg, h.s, h.episode, calls[|calls| - 1]);
      hide Step, GoodCall, ValidPolicy, Bounded, ObserveFrom, Transitions;
    }
  }
}
