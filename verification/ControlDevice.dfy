/**
 The control device's mapping lifetime. Any number of control threads (CONNECT, DISCONNECT, QUERY and
 CLEANUP, serialised by the state mutex) interleave with any number of realtime threads (spin lock only).
 Every lock operation, every kernel call, every access through the view and every change of the mapping
 pointers is a step of its own; the owner fields and `connected` change in one step.
 */
module ControlDevice {
  import opened Words
  import opened Wrappers

  datatype Op =
    | Connect(pid: nat, file: nat, generation: u64)
    | Disconnect(pid: nat, file: nat, generation: u64)
    | Query(pid: nat, file: nat, generation: u64)
    | Cleanup(file: nat)

  /** The device extension. A view is named by the section it maps. */
  datatype Context = Context(
    section: Option<nat>, view: Option<nat>,
    ownerPid: nat, ownerFile: Option<nat>, generation: u64, connected: bool)

  const NO_CONNECTION := Context(None, None, 0, None, 0, false)

  /** A kernel section object as the driver sees it, with counts of the release calls made on it. */
  datatype Section = Section(mapped: bool, referenced: bool, unmaps: nat, derefs: nat, published: bool)

  datatype Pc =
    | Idle
    | WaitMutex(op: Op)
    | Decide(op: Op)
    // CreateDriverOwnedSection and its failure paths
    | CreateSection(op: Op)
    | MapView(op: Op, k: nat)
    | UnmapFailed(k: nat)
    | Initialise(op: Op, k: nat)
    | DerefFailed(k: nat)
    // publication
    | LockPublish(op: Op, k: nat)
    | SetSection(op: Op, k: nat)
    | SetView(op: Op, k: nat)
    | SetConnected(op: Op, k: nat)
    | UnlockPublish
    // ResetConnectionLocked
    | LockReset
    | TakeMapping
    | ClearView(view: Option<nat>, section: Option<nat>)
    | ClearSection(view: Option<nat>, section: Option<nat>)
    | ClearConnected(view: Option<nat>, section: Option<nat>)
    | UnlockReset(view: Option<nat>, section: Option<nat>)
    | Unmap(view: Option<nat>, section: Option<nat>)
    | Deref(section: Option<nat>)
    // QUERY
    | ReadCursors
    | UnlockMutex
    // VsnWdmControlConsumeFrame
    | RtWait
    | RtCheck
    | RtAccess(k: nat)
    | RtUnlock

  /** What a step leaves to the environment: which request arrives, which kernel call succeeds. */
  datatype Choice = Choice(op: Op, realtime: bool, ok: bool, shortView: bool)

  /** `openers` is history: which request brought each published section up. No step reads it. */
  datatype State = State(
    ctx: Context, mutex: Option<nat>, spin: Option<nat>, sections: seq<Section>, pcs: seq<Pc>, fault: bool,
    openers: map<nat, Op>)

  predicate HoldsMutex(pc: Pc) {
    !pc.Idle? && !pc.WaitMutex? && !pc.RtWait? && !pc.RtCheck? && !pc.RtAccess? && !pc.RtUnlock?
  }

  predicate HoldsSpin(pc: Pc) {
    || pc.SetSection? || pc.SetView? || pc.SetConnected? || pc.UnlockPublish?
    || pc.TakeMapping? || pc.ClearView? || pc.ClearSection? || pc.ClearConnected? || pc.UnlockReset?
    || pc.RtCheck? || pc.RtAccess? || pc.RtUnlock?
  }

  /** `RequestOwnsConnection`. */
  predicate Owns(ctx: Context, pid: nat, file: nat, generation: u64) {
    ctx.connected && ctx.ownerPid == pid && ctx.ownerFile == Some(file) && ctx.generation == generation
  }

  // ----- kernel calls; a misuse raises the fault flag -----

  function Access(s: State, k: Option<nat>): (u: State)
    ensures u == s.(fault := u.fault)
  {
    s.(fault := s.fault || k.None? || k.value >= |s.sections| || !s.sections[k.value].mapped)
  }

  function UnmapView(s: State, k: nat): (u: State)
    ensures u == s.(sections := u.sections, fault := u.fault)
  {
    if k < |s.sections| && s.sections[k].mapped then
      s.(sections := s.sections[k := s.sections[k].(mapped := false, unmaps := s.sections[k].unmaps + 1)])
    else s.(fault := true)
  }

  function Dereference(s: State, k: nat): (u: State)
    ensures u == s.(sections := u.sections, fault := u.fault)
  {
    if k < |s.sections| && s.sections[k].referenced then
      s.(sections := s.sections[k := s.sections[k].(referenced := false, derefs := s.sections[k].derefs + 1)])
    else s.(fault := true)
  }

  function Goto(s: State, t: nat, pc: Pc): State
    requires t < |s.pcs|
  {
    s.(pcs := s.pcs[t := pc])
  }

  /** Entering and leaving a control call, and what the call decides once it holds the mutex. */
  function ControlStep(s: State, t: nat, c: Choice): State
    requires t < |s.pcs|
  {
    match s.pcs[t]
    case Idle => Goto(s, t, if c.realtime then RtWait else WaitMutex(c.op))
    case WaitMutex(op) => if s.mutex.Some? then s else Goto(s.(mutex := Some(t)), t, Decide(op))
    case Decide(op) =>
      (match op
       case Connect(_, _, _) => Goto(s, t, if s.ctx.connected then UnlockMutex else CreateSection(op))
       case Disconnect(pid, file, generation) =>
         Goto(s, t, if Owns(s.ctx, pid, file, generation) then LockReset else UnlockMutex)
       case Query(pid, file, generation) =>
         Goto(s, t, if Owns(s.ctx, pid, file, generation) then ReadCursors else UnlockMutex)
       case Cleanup(file) =>
         Goto(s, t, if s.ctx.connected && s.ctx.ownerFile == Some(file) then LockReset else UnlockMutex))
    case ReadCursors => Goto(Access(s, s.ctx.view), t, if c.ok then ReadCursors else UnlockMutex)
    case UnlockMutex => Goto(s.(mutex := None), t, Idle)
    case _ => s
  }

  /** `CreateDriverOwnedSection`. */
  function CreateStep(s: State, t: nat, c: Choice): State
    requires t < |s.pcs|
  {
    match s.pcs[t]
    case CreateSection(op) =>
      if c.ok then Goto(s.(sections := s.sections + [Section(false, true, 0, 0, false)]), t, MapView(op, |s.sections|))
      else Goto(s, t, UnlockMutex)
    case MapView(op, k) =>
      if !c.ok || k >= |s.sections| then Goto(s, t, DerefFailed(k))
      else
        var mapped := s.(sections := s.sections[k := s.sections[k].(mapped := true)]);
        Goto(mapped, t, if c.shortView then UnmapFailed(k) else Initialise(op, k))
    case Initialise(op, k) => Goto(Access(s, Some(k)), t, if c.ok then LockPublish(op, k) else UnmapFailed(k))
    case UnmapFailed(k) => Goto(UnmapView(s, k), t, DerefFailed(k))
    case DerefFailed(k) => Goto(Dereference(s, k), t, UnlockMutex)
    case _ => s
  }

  /** The spin-locked publication that ends a successful CONNECT. */
  function PublishStep(s: State, t: nat, c: Choice): State
    requires t < |s.pcs|
  {
    match s.pcs[t]
    case LockPublish(op, k) => if s.spin.Some? then s else Goto(s.(spin := Some(t)), t, SetSection(op, k))
    case SetSection(op, k) => Goto(s.(ctx := s.ctx.(section := Some(k))), t, SetView(op, k))
    case SetView(op, k) => Goto(s.(ctx := s.ctx.(view := Some(k))), t, SetConnected(op, k))
    case SetConnected(op, k) =>
      var owned := if op.Connect?
        then s.ctx.(ownerPid := op.pid, ownerFile := Some(op.file), generation := op.generation) else s.ctx;
      var noted := if k < |s.sections| then s.(sections := s.sections[k := s.sections[k].(published := true)]) else s;
      Goto(noted.(ctx := owned.(connected := true), openers := s.openers[k := op]), t, UnlockPublish)
    case UnlockPublish => Goto(s.(spin := None), t, UnlockMutex)
    case _ => s
  }

  /** `ResetConnectionLocked`. */
  function ResetStep(s: State, t: nat, c: Choice): State
    requires t < |s.pcs|
  {
    match s.pcs[t]
    case LockReset => if s.spin.Some? then s else Goto(s.(spin := Some(t)), t, TakeMapping)
    case TakeMapping => Goto(s, t, ClearView(s.ctx.view, s.ctx.section))
    case ClearView(view, section) => Goto(s.(ctx := s.ctx.(view := None)), t, ClearSection(view, section))
    case ClearSection(view, section) => Goto(s.(ctx := s.ctx.(section := None)), t, ClearConnected(view, section))
    case ClearConnected(view, section) =>
      Goto(s.(ctx := s.ctx.(ownerPid := 0, ownerFile := None, generation := 0, connected := false)), t,
        UnlockReset(view, section))
    case UnlockReset(view, section) => Goto(s.(spin := None), t, Unmap(view, section))
    case Unmap(view, section) => Goto(if view.Some? then UnmapView(s, view.value) else s, t, Deref(section))
    case Deref(section) => Goto(if section.Some? then Dereference(s, section.value) else s, t, UnlockMutex)
    case _ => s
  }

  /** `VsnWdmControlConsumeFrame`, which reads through the view any number of times. */
  function RealtimeStep(s: State, t: nat, c: Choice): State
    requires t < |s.pcs|
  {
    match s.pcs[t]
    case RtWait => if s.spin.Some? then s else Goto(s.(spin := Some(t)), t, RtCheck)
    case RtCheck => Goto(s, t, if s.ctx.connected && s.ctx.view.Some? then RtAccess(s.ctx.view.value) else RtUnlock)
    case RtAccess(k) => Goto(Access(s, Some(k)), t, if c.ok then RtAccess(k) else RtUnlock)
    case RtUnlock => Goto(s.(spin := None), t, Idle)
    case _ => s
  }

  /** One step of thread t. A thread that finds a lock taken stays where it is. */
  function Step(s: State, t: nat, c: Choice): State
    requires t < |s.pcs|
  {
    match s.pcs[t]
    case Idle | WaitMutex(_) | Decide(_) | ReadCursors | UnlockMutex => ControlStep(s, t, c)
    case CreateSection(_) | MapView(_, _) | UnmapFailed(_) | Initialise(_, _) | DerefFailed(_) => CreateStep(s, t, c)
    case LockPublish(_, _) | SetSection(_, _) | SetView(_, _) | SetConnected(_, _) | UnlockPublish =>
      PublishStep(s, t, c)
    case RtWait | RtCheck | RtAccess(_) | RtUnlock => RealtimeStep(s, t, c)
    case _ => ResetStep(s, t, c)
  }

  ghost predicate Init(s: State) {
    && s.ctx == NO_CONNECTION && s.mutex == None && s.spin == None && s.sections == [] && !s.fault && s.openers == map[]
    && forall t :: 0 <= t < |s.pcs| ==> s.pcs[t] == Idle
  }

  ghost predicate Next(s: State, u: State) {
    exists t: nat, c: Choice :: t < |s.pcs| && u == Step(s, t, c)
  }

  ghost predicate Run(run: seq<State>) {
    0 < |run| && Init(run[0]) && forall i :: 0 <= i < |run| - 1 ==> Next(run[i], run[i + 1])
  }

  // ----- invariant -----

  /** The program counter of the mutex holder, or idle. */
  ghost function Writer(s: State): Pc {
    if s.mutex.Some? && s.mutex.value < |s.pcs| then s.pcs[s.mutex.value] else Idle
  }

  predicate Stable(ctx: Context) { (ctx.connected <==> ctx.view.Some?) && ctx.view == ctx.section }

  /** The device extension as the writer's progress determines it. */
  ghost predicate ContextOk(pc: Pc, ctx: Context) {
    match pc
    case CreateSection(_) | MapView(_, _) | UnmapFailed(_) | Initialise(_, _) | DerefFailed(_) | LockPublish(_, _) |
      SetSection(_, _) =>
      !ctx.connected && ctx.view.None? && ctx.section.None?
    case SetView(_, k) => !ctx.connected && ctx.view.None? && ctx.section == Some(k)
    case SetConnected(_, k) => !ctx.connected && ctx.view == Some(k) && ctx.section == Some(k)
    case ClearView(view, section) => Stable(ctx) && ctx.view == view && ctx.section == section
    case ClearSection(view, section) =>
      ctx.view.None? && ctx.section == section == view && (ctx.connected <==> view.Some?)
    case ClearConnected(view, section) =>
      ctx.view.None? && ctx.section.None? && section == view && (ctx.connected <==> view.Some?)
    case UnlockReset(view, section) => !ctx.connected && ctx.view.None? && ctx.section.None? && section == view
    case Unmap(view, section) => !ctx.connected && ctx.view.None? && ctx.section.None? && section == view
    case Deref(section) => !ctx.connected && ctx.view.None? && ctx.section.None?
    case ReadCursors => Stable(ctx) && ctx.connected
    case _ => Stable(ctx)
  }

  /** The section the writer holds but has not published, or has already detached. */
  function Held(pc: Pc): Option<nat> {
    match pc
    case MapView(_, k) => Some(k)
    case UnmapFailed(k) => Some(k)
    case Initialise(_, k) => Some(k)
    case DerefFailed(k) => Some(k)
    case LockPublish(_, k) => Some(k)
    case SetSection(_, k) => Some(k)
    case SetView(_, k) => Some(k)
    case SetConnected(_, k) => Some(k)
    case ClearSection(view, _) => view
    case ClearConnected(view, _) => view
    case UnlockReset(view, _) => view
    case Unmap(view, _) => view
    case Deref(section) => section
    case _ => None
  }

  predicate Unreleased(pc: Pc) { !pc.MapView? && !pc.DerefFailed? && !pc.Deref? }

  predicate Detached(pc: Pc) { pc.ClearSection? || pc.ClearConnected? || pc.UnlockReset? || pc.Unmap? || pc.Deref? }

  /** Section k, by whether it is current, held by the writer, or done with. */
  ghost predicate SectionOk(pc: Pc, ctx: Context, k: nat, x: Section) {
    if Held(pc) == Some(k) then
      && x.referenced && x.derefs == 0 && x.mapped == Unreleased(pc)
      && (x.mapped || pc.MapView? ==> x.unmaps == 0)
      && (pc.DerefFailed? ==> x.unmaps <= 1 && !x.published) && (pc.Deref? ==> x.unmaps == 1)
      && (!Detached(pc) ==> !x.published)
    else if ctx.view == Some(k) || ctx.section == Some(k)
      then x.mapped && x.referenced && x.unmaps == 0 && x.derefs == 0
    else !x.mapped && !x.referenced && x.derefs == 1 && x.unmaps <= 1 && (x.published ==> x.unmaps == 1)
  }

  ghost predicate LocksOk(s: State) {
    && (forall t :: 0 <= t < |s.pcs| ==> (s.mutex == Some(t) <==> HoldsMutex(s.pcs[t])))
    && (forall t :: 0 <= t < |s.pcs| ==> (s.spin == Some(t) <==> HoldsSpin(s.pcs[t])))
    && (s.mutex.Some? ==> s.mutex.value < |s.pcs|) && (s.spin.Some? ==> s.spin.value < |s.pcs|)
  }

  ghost predicate ReadersOk(s: State) {
    forall t :: 0 <= t < |s.pcs| && s.pcs[t].RtAccess? ==> s.ctx.view == Some(s.pcs[t].k)
  }

  ghost predicate SectionsOk(pc: Pc, ctx: Context, sections: seq<Section>) {
    && (forall k :: 0 <= k < |sections| ==> SectionOk(pc, ctx, k, sections[k]))
    && (ctx.view.Some? ==> ctx.view.value < |sections|) && (ctx.section.Some? ==> ctx.section.value < |sections|)
    && (Held(pc).Some? ==> Held(pc).value < |sections|)
  }

  /** The part of the invariant that is not about locks. */
  ghost predicate MappingOk(s: State) {
    ReadersOk(s) && ContextOk(Writer(s), s.ctx) && SectionsOk(Writer(s), s.ctx, s.sections) && !s.fault
  }

  ghost predicate Inv(s: State) {
    LocksOk(s) && MappingOk(s)
  }

  /** A step moves one thread; it takes a lock only when that is free and gives up only what it holds. */
  ghost predicate LocksMove(s: State, u: State, t: nat)
    requires t < |s.pcs|
  {
    && |u.pcs| == |s.pcs| && u.pcs == s.pcs[t := u.pcs[t]]
    && u.mutex ==
       (if HoldsMutex(u.pcs[t]) == HoldsMutex(s.pcs[t]) then s.mutex else if HoldsMutex(u.pcs[t]) then Some(t)
       else None)
    && u.spin ==
       (if HoldsSpin(u.pcs[t]) == HoldsSpin(s.pcs[t]) then s.spin else if HoldsSpin(u.pcs[t]) then Some(t) else None)
    && (!HoldsMutex(s.pcs[t]) && HoldsMutex(u.pcs[t]) ==> s.mutex.None?)
    && (!HoldsSpin(s.pcs[t]) && HoldsSpin(u.pcs[t]) ==> s.spin.None?)
  }

  lemma {:induction false} ControlMovesLocks(s: State, t: nat, c: Choice)
    requires t < |s.pcs|
    ensures LocksMove(s, ControlStep(s, t, c), t)
  {
    hide Access, Owns;
  }

  /** A thread that stays inside, or outside, each lock moves none. */
  lemma {:induction false} KeepsLocks(s: State, u: State, t: nat)
    requires t < |s.pcs| == |u.pcs| && u.pcs == s.pcs[t := u.pcs[t]] && u.mutex == s.mutex && u.spin == s.spin
    requires HoldsMutex(u.pcs[t]) == HoldsMutex(s.pcs[t]) && HoldsSpin(u.pcs[t]) == HoldsSpin(s.pcs[t])
    ensures LocksMove(s, u, t)
  {
  }

  lemma {:induction false} CreateMovesLocks(s: State, t: nat, c: Choice)
    requires t < |s.pcs|
    ensures LocksMove(s, CreateStep(s, t, c), t)
  {
    hide Access, UnmapView, Dereference, LocksMove;
    KeepsLocks(s, CreateStep(s, t, c), t);
  }

  lemma {:induction false} PublishMovesLocks(s: State, t: nat, c: Choice)
    requires t < |s.pcs|
    ensures LocksMove(s, PublishStep(s, t, c), t)
  {
  }

  lemma {:induction false} ResetMovesLocks(s: State, t: nat, c: Choice)
    requires t < |s.pcs|
    ensures LocksMove(s, ResetStep(s, t, c), t)
  {
    hide UnmapView, Dereference;
    if !s.pcs[t].LockReset? && !s.pcs[t].UnlockReset? {
      hide LocksMove;
      KeepsLocks(s, ResetStep(s, t, c), t);
    }
  }

  lemma {:induction false} RealtimeMovesLocks(s: State, t: nat, c: Choice)
    requires t < |s.pcs|
    ensures LocksMove(s, RealtimeStep(s, t, c), t)
  {
    hide Access;
  }

  lemma {:induction false} LocksMoveWithThread(s: State, t: nat, c: Choice)
    requires t < |s.pcs|
    ensures LocksMove(s, Step(s, t, c), t)
  {
    ControlMovesLocks(s, t, c);
    CreateMovesLocks(s, t, c);
    PublishMovesLocks(s, t, c);
    ResetMovesLocks(s, t, c);
    RealtimeMovesLocks(s, t, c);
    hide LocksMove, ControlStep, CreateStep, PublishStep, ResetStep, RealtimeStep;
  }

  /** Lock ownership follows the program counters. */
  lemma {:induction false} StepKeepsLocks(s: State, t: nat, c: Choice)
    requires LocksOk(s) && t < |s.pcs|
    ensures LocksOk(Step(s, t, c))
  {
    LocksMoveWithThread(s, t, c);
    hide Step, HoldsMutex, HoldsSpin;
  }

  lemma {:induction false} LockAt(s: State, t: nat)
    requires LocksOk(s) && t < |s.pcs|
    ensures s.mutex == Some(t) <==> HoldsMutex(s.pcs[t])
    ensures s.spin == Some(t) <==> HoldsSpin(s.pcs[t])
    ensures s.mutex.Some? ==> s.mutex.value < |s.pcs|
  {
  }

  /** While the writer works inside the spin lock no realtime thread is reading. */
  lemma {:induction false} NoReaderBesideSpinHolder(s: State, t: nat)
    requires LocksOk(s) && t < |s.pcs| && HoldsSpin(s.pcs[t]) && HoldsMutex(s.pcs[t])
    ensures forall r :: 0 <= r < |s.pcs| ==> !s.pcs[r].RtAccess?
  {
  }

  /** A step of a thread without the mutex changes neither the device extension nor any section. */
  lemma {:induction false} OutsiderStep(s: State, t: nat, c: Choice)
    requires LocksOk(s) && MappingOk(s) && t < |s.pcs| && !HoldsMutex(s.pcs[t])
    ensures MappingOk(Step(s, t, c))
  {
    LockAt(s, t);
    hide LocksOk;
  }

  lemma {:induction false} ControlWriterStep(s: State, t: nat, c: Choice)
    requires LocksOk(s) && MappingOk(s) && t < |s.pcs| && HoldsMutex(s.pcs[t])
    ensures MappingOk(ControlStep(s, t, c))
  {
    LockAt(s, t);
    hide LocksOk;
  }

  lemma {:induction false} BuildWriterStep(s: State, t: nat, c: Choice)
    requires LocksOk(s) && MappingOk(s) && t < |s.pcs|
    requires (s.pcs[t].CreateSection? || s.pcs[t].MapView? || s.pcs[t].Initialise?)
    ensures MappingOk(CreateStep(s, t, c))
  {
    LockAt(s, t);
    hide LocksOk, UnmapView, Dereference;
  }

  lemma {:induction false} UndoWriterStep(s: State, t: nat, c: Choice)
    requires LocksOk(s) && MappingOk(s) && t < |s.pcs| && (s.pcs[t].UnmapFailed? || s.pcs[t].DerefFailed?)
    ensures MappingOk(CreateStep(s, t, c))
  {
    LockAt(s, t);
    hide LocksOk;
  }

  lemma {:induction false} CreateWriterStep(s: State, t: nat, c: Choice)
    requires LocksOk(s) && MappingOk(s) && t < |s.pcs|
    ensures s.pcs[t].CreateSection? || s.pcs[t].MapView? || s.pcs[t].Initialise? || s.pcs[t].UnmapFailed? ||
            s.pcs[t].DerefFailed? ==>
              MappingOk(CreateStep(s, t, c))
  {
    hide LocksOk, MappingOk, CreateStep;
    if s.pcs[t].UnmapFailed? || s.pcs[t].DerefFailed? {
      UndoWriterStep(s, t, c);
    } else if s.pcs[t].CreateSection? || s.pcs[t].MapView? || s.pcs[t].Initialise? {
      BuildWriterStep(s, t, c);
    }
  }

  lemma {:induction false} PublishWriterStep(s: State, t: nat, c: Choice)
    requires LocksOk(s) && MappingOk(s) && t < |s.pcs| && HoldsMutex(s.pcs[t])
    ensures MappingOk(PublishStep(s, t, c))
  {
    LockAt(s, t);
    if HoldsSpin(s.pcs[t]) { NoReaderBesideSpinHolder(s, t); }
    hide LocksOk;
  }

  lemma {:induction false} DetachWriterStep(s: State, t: nat, c: Choice)
    requires LocksOk(s) && MappingOk(s) && t < |s.pcs| && HoldsMutex(s.pcs[t]) && HoldsSpin(s.pcs[t])
    ensures MappingOk(ResetStep(s, t, c))
  {
    LockAt(s, t);
    NoReaderBesideSpinHolder(s, t);
    hide LocksOk;
  }

  lemma {:induction false} ReleaseWriterStep(s: State, t: nat, c: Choice)
    requires LocksOk(s) && MappingOk(s) && t < |s.pcs| && (s.pcs[t].Unmap? || s.pcs[t].Deref?)
    ensures MappingOk(ResetStep(s, t, c))
  {
    LockAt(s, t);
    hide LocksOk;
  }

  lemma {:induction false} ResetWriterStep(s: State, t: nat, c: Choice)
    requires LocksOk(s) && MappingOk(s) && t < |s.pcs| && HoldsMutex(s.pcs[t])
    ensures MappingOk(ResetStep(s, t, c))
  {
    LockAt(s, t);
    if HoldsSpin(s.pcs[t]) {
      DetachWriterStep(s, t, c);
    } else if s.pcs[t].Unmap? || s.pcs[t].Deref? {
      ReleaseWriterStep(s, t, c);
    } else {
      hide LocksOk;
    }
  }

  lemma {:induction false} StepKeepsInv(s: State, t: nat, c: Choice)
    requires Inv(s) && t < |s.pcs|
    ensures Inv(Step(s, t, c))
  {
    StepKeepsLocks(s, t, c);
    if HoldsMutex(s.pcs[t]) {
      ControlWriterStep(s, t, c);
      CreateWriterStep(s, t, c);
      PublishWriterStep(s, t, c);
      ResetWriterStep(s, t, c);
    } else {
      OutsiderStep(s, t, c);
    }
    hide LocksOk, MappingOk, ControlStep, CreateStep, PublishStep, ResetStep, RealtimeStep;
  }

  lemma {:induction false} RunKeepsInv(run: seq<State>, i: nat)
    requires Run(run) && i < |run|
    ensures Inv(run[i])
  {
    if i > 0 {
      RunKeepsInv(run, i - 1);
      var t: nat, c: Choice :| t < |run[i - 1].pcs| && run[i] == Step(run[i - 1], t, c);
      StepKeepsInv(run[i - 1], t, c);
    }
  }

  // ----- what every run guarantees -----

  /** No access goes through an unmapped view, nothing is unmapped or released twice. */
  lemma {:induction false} NoUseAfterUnmap(run: seq<State>, i: nat)
    requires Run(run) && i < |run|
    ensures !run[i].fault
    ensures forall t :: 0 <= t < |run[i].pcs| && run[i].pcs[t].RtAccess? ==>
              && run[i].pcs[t].k < |run[i].sections| && run[i].sections[run[i].pcs[t].k].mapped
    ensures forall t :: 0 <= t < |run[i].pcs| && run[i].pcs[t].ReadCursors? ==>
              && run[i].ctx.view.Some? && run[i].ctx.view.value < |run[i].sections|
              && run[i].sections[run[i].ctx.view.value].mapped
    ensures forall k :: 0 <= k < |run[i].sections| ==> run[i].sections[k].unmaps <= 1 && run[i].sections[k].derefs <= 1
  {
    RunKeepsInv(run, i);
  }

  /**
   Unless a control call is inside the spin lock, connected, a view and a section go together: no realtime
   thread ever sees a half-published or half-detached connection.
   */
  lemma {:induction false} ConnectedMeansMapped(run: seq<State>, i: nat)
    requires Run(run) && i < |run|
    requires forall t :: 0 <= t < |run[i].pcs| && HoldsSpin(run[i].pcs[t]) ==> !HoldsMutex(run[i].pcs[t])
    ensures var ctx := run[i].ctx;
            && (ctx.connected <==> ctx.view.Some?) && (ctx.view.Some? <==> ctx.section.Some?) && ctx.view == ctx.section
            && (ctx.connected ==>
                  && ctx.view.value < |run[i].sections|
                  && run[i].sections[ctx.view.value].mapped && run[i].sections[ctx.view.value].referenced)
  {
    RunKeepsInv(run, i);
  }

  /** Once no control call is in progress, every section but the connected one has been released exactly once. */
  lemma {:induction false} ReleasedExactlyOnce(run: seq<State>, i: nat, k: nat)
    requires Run(run) && i < |run| && run[i].mutex.None? && k < |run[i].sections|
    ensures var x := run[i].sections[k];
            if run[i].ctx.section == Some(k) then x.mapped && x.referenced && x.unmaps == 0 && x.derefs == 0
            else !x.mapped && !x.referenced && x.derefs == 1 && (x.published ==> x.unmaps == 1)
  {
    RunKeepsInv(run, i);
  }

  // ----- one published region at a time -----

  /** The transport as `ControlBridge` has it: how many sessions there have been, and whether one is up. */
  datatype Publication = Publication(session: nat, up: bool)

  /** Nothing changes, the next session comes up, or the running one goes down. */
  predicate PublicationStep(a: Publication, b: Publication) {
    b == a || (!a.up && b == Publication(a.session + 1, true)) || (a.up && b == Publication(a.session, false))
  }

  function PublishedCount(sections: seq<Section>): nat {
    if |sections| == 0 then 0
    else PublishedCount(sections[..|sections| - 1]) + if sections[|sections| - 1].published then 1 else 0
  }

  /** The section a realtime thread would read, if any. */
  function Current(ctx: Context): Option<nat> { if ctx.connected then ctx.view else None }

  function PublicationOf(s: State): Publication { Publication(PublishedCount(s.sections), Current(s.ctx).Some?) }

  lemma {:induction false} SameCount(a: seq<Section>, b: seq<Section>)
    requires |a| == |b| && forall k :: 0 <= k < |a| ==> a[k].published == b[k].published
    ensures PublishedCount(a) == PublishedCount(b)
  {
    if |a| > 0 { SameCount(a[..|a| - 1], b[..|b| - 1]); }
  }

  lemma {:induction false} OneMorePublished(a: seq<Section>, k: nat)
    requires k < |a| && !a[k].published
    ensures PublishedCount(a[k := a[k].(published := true)]) == PublishedCount(a) + 1
  {
    var b := a[k := a[k].(published := true)];
    if k < |a| - 1 {
      OneMorePublished(a[..|a| - 1], k);
      assert b[..|b| - 1] == a[..|a| - 1][k := a[k].(published := true)];
    } else {
      SameCount(a[..|a| - 1], b[..|b| - 1]);
    }
  }

  /** Sections come and are torn down without being published. */
  ghost predicate SameFlags(a: seq<Section>, b: seq<Section>) {
    && |a| <= |b| <= |a| + 1 && (forall k :: 0 <= k < |a| ==> b[k].published == a[k].published)
    && (|b| == |a| + 1 ==> !b[|a|].published)
  }

  lemma {:induction false} SameFlagsCount(a: seq<Section>, b: seq<Section>)
    requires SameFlags(a, b)
    ensures PublishedCount(a) == PublishedCount(b)
  {
    SameCount(a, b[..|a|]);
    if |b| > |a| { assert b[..|b| - 1] == b[..|a|]; } else { assert b[..|a|] == b; }
  }

  lemma {:induction false} QuietSteps(s: State, t: nat, c: Choice)
    requires t < |s.pcs|
    ensures ControlStep(s, t, c).ctx == s.ctx && SameFlags(s.sections, ControlStep(s, t, c).sections)
    ensures RealtimeStep(s, t, c).ctx == s.ctx && SameFlags(s.sections, RealtimeStep(s, t, c).sections)
    ensures SameFlags(s.sections, ResetStep(s, t, c).sections)
  {
  }

  lemma {:induction false} CreationIsQuiet(s: State, t: nat, c: Choice)
    requires t < |s.pcs|
    ensures CreateStep(s, t, c).ctx == s.ctx && SameFlags(s.sections, CreateStep(s, t, c).sections)
  {
  }

  lemma {:induction false} WriterAt(s: State, t: nat)
    requires Inv(s) && t < |s.pcs| && HoldsMutex(s.pcs[t])
    ensures Writer(s) == s.pcs[t] && ContextOk(s.pcs[t], s.ctx) && SectionsOk(s.pcs[t], s.ctx, s.sections)
  {
    LockAt(s, t);
  }

  /** Only connecting and taking the view away change what is published, and only the spin lock's holder does either. */
  lemma {:induction false} StepPublishes(s: State, t: nat, c: Choice)
    requires Inv(s) && t < |s.pcs|
    ensures PublicationStep(PublicationOf(s), PublicationOf(Step(s, t, c)))
    ensures !s.pcs[t].SetConnected? && !s.pcs[t].ClearView? ==>
              PublicationOf(Step(s, t, c)) == PublicationOf(s) && Current(Step(s, t, c).ctx) == Current(s.ctx)
    ensures s.pcs[t].SetConnected? ==>
              var k := s.pcs[t].k;
              k < |s.sections| && !s.sections[k].published && Current(Step(s, t, c).ctx) == Some(k)
  {
    QuietSteps(s, t, c);
    CreationIsQuiet(s, t, c);
    var u := Step(s, t, c);
    if HoldsMutex(s.pcs[t]) { WriterAt(s, t); }
    hide Inv, Writer, ControlStep, CreateStep, RealtimeStep, PublishedCount;
    if s.pcs[t].SetConnected? {
      OneMorePublished(s.sections, s.pcs[t].k);
    } else {
      SameFlagsCount(s.sections, u.sections);
    }
  }

  /** Over a run the publication only ever takes these steps, from nothing published. */
  lemma {:induction false} RunPublishes(run: seq<State>, i: nat)
    requires Run(run) && i < |run|
    ensures i == 0 ==> PublicationOf(run[0]) == Publication(0, false)
    ensures i > 0 ==> PublicationStep(PublicationOf(run[i - 1]), PublicationOf(run[i]))
  {
    if i > 0 {
      RunKeepsInv(run, i - 1);
      assert Next(run[i - 1], run[i]);
      var t: nat, c: Choice :| t < |run[i - 1].pcs| && run[i] == Step(run[i - 1], t, c);
      StepPublishes(run[i - 1], t, c);
      hide Inv, Step;
    }
  }

  /** Inside the realtime critical section. */
  predicate Reading(pc: Pc) { pc.RtCheck? || pc.RtAccess? || pc.RtUnlock? }

  /**
   A realtime critical section, however long, sees one publication, and every access in it is to the section that is
   published: the whole consume call is atomic with respect to CONNECT and DISCONNECT.
   */
  lemma {:induction false} ReaderSeesOneRegion(run: seq<State>, i: nat, j: nat, t: nat)
    requires Run(run) && i <= j < |run|
    requires forall n :: i <= n <= j ==> t < |run[n].pcs| && Reading(run[n].pcs[t])
    ensures PublicationOf(run[j]) == PublicationOf(run[i]) && Current(run[j].ctx) == Current(run[i].ctx)
    ensures run[j].pcs[t].RtAccess? ==> Current(run[j].ctx) == Some(run[j].pcs[t].k)
  {
    hide Inv, Step, PublicationOf, Init;
    if i < j {
      ReaderSeesOneRegion(run, i, j - 1, t);
      RunKeepsInv(run, j - 1);
      assert Next(run[j - 1], run[j]);
      NextBesideReader(run[j - 1], run[j], t);
    }
    RunKeepsInv(run, j);
    AccessIsPublished(run[j], t);
  }

  lemma {:induction false} NextBesideReader(s: State, u: State, t: nat)
    requires Inv(s) && Next(s, u) && t < |s.pcs| && Reading(s.pcs[t])
    ensures PublicationOf(u) == PublicationOf(s) && Current(u.ctx) == Current(s.ctx)
  {
    var w: nat, c: Choice :| w < |s.pcs| && u == Step(s, w, c);
    StepPublishes(s, w, c);
    LockAt(s, t);
    LockAt(s, w);
    hide Inv, Step, PublicationOf;
  }

  /** A realtime thread that enters reads the published section whenever there is one. */
  lemma {:induction false} ReaderReads(run: seq<State>, i: nat, t: nat, c: Choice)
    requires Run(run) && i < |run| && t < |run[i].pcs| && run[i].pcs[t].RtCheck?
    ensures var u := Step(run[i], t, c);
            && |u.pcs| == |run[i].pcs|
            && u.pcs[t] == match Current(run[i].ctx) case None => RtUnlock case Some(k) => RtAccess(k)
  {
  }

  lemma {:induction false} AccessIsPublished(s: State, t: nat)
    requires Inv(s) && t < |s.pcs|
    ensures s.pcs[t].RtAccess? ==> Current(s.ctx) == Some(s.pcs[t].k)
  {
    LockAt(s, t);
    if s.mutex.Some? { LockAt(s, s.mutex.value); }
  }

  // ----- who may read and tear down -----

  /** The requests of a CONNECT in progress. */
  predicate Connecting(pc: Pc) {
    pc.CreateSection? || pc.MapView? || pc.Initialise? || pc.LockPublish? || pc.SetSection? || pc.SetView? ||
      pc.SetConnected?
  }

  /** The device extension names the process, file and generation of the CONNECT that brought the section up. */
  ghost predicate OwnerOk(s: State) {
    && (forall t :: 0 <= t < |s.pcs| && Connecting(s.pcs[t]) ==> s.pcs[t].op.Connect?)
    && (Current(s.ctx).Some? ==>
          && Current(s.ctx).value in s.openers
          && s.openers[Current(s.ctx).value] == Connect(s.ctx.ownerPid, OwnerFile(s.ctx), s.ctx.generation)
          && s.ctx.ownerFile.Some?)
  }

  function OwnerFile(ctx: Context): nat { if ctx.ownerFile.Some? then ctx.ownerFile.value else 0 }

  /** Connecting threads go on with the request they were admitted for. */
  lemma {:induction false} ConnectingStep(s: State, t: nat, c: Choice)
    requires t < |s.pcs| && (Connecting(s.pcs[t]) ==> s.pcs[t].op.Connect?)
    ensures var u := Step(s, t, c);
            |u.pcs| == |s.pcs| && u.pcs == s.pcs[t := u.pcs[t]] && (Connecting(u.pcs[t]) ==> u.pcs[t].op.Connect?)
  {
    LocksMoveWithThread(s, t, c);
    ConnectingControl(s, t, c);
    ConnectingCreate(s, t, c);
    ConnectingPublish(s, t, c);
    hide ControlStep, CreateStep, PublishStep, HoldsMutex, HoldsSpin, Access, UnmapView, Dereference;
  }

  lemma {:induction false} ConnectingControl(s: State, t: nat, c: Choice)
    requires t < |s.pcs|
    ensures var u := ControlStep(s, t, c);
            |u.pcs| == |s.pcs| && (!Connecting(s.pcs[t]) && Connecting(u.pcs[t]) ==> u.pcs[t].op.Connect?)
  {
    hide Access, Owns;
  }

  lemma {:induction false} ConnectingCreate(s: State, t: nat, c: Choice)
    requires t < |s.pcs| && (Connecting(s.pcs[t]) ==> s.pcs[t].op.Connect?)
    ensures var u := CreateStep(s, t, c); |u.pcs| == |s.pcs| && (Connecting(u.pcs[t]) ==> u.pcs[t].op.Connect?)
  {
    hide Access, UnmapView, Dereference;
  }

  lemma {:induction false} ConnectingPublish(s: State, t: nat, c: Choice)
    requires t < |s.pcs| && (Connecting(s.pcs[t]) ==> s.pcs[t].op.Connect?)
    ensures var u := PublishStep(s, t, c); |u.pcs| == |s.pcs| && (Connecting(u.pcs[t]) ==> u.pcs[t].op.Connect?)
  {
  }

  lemma {:induction false} QuietOpeners(s: State, t: nat, c: Choice)
    requires t < |s.pcs|
    ensures ControlStep(s, t, c).openers == CreateStep(s, t, c).openers == RealtimeStep(s, t, c).openers == s.openers
  {
    hide Owns;
  }

  /** A step that does not connect keeps the owner, or withdraws the publication. */
  lemma {:induction false} QuietOwner(s: State, t: nat, c: Choice)
    requires t < |s.pcs| && !s.pcs[t].SetConnected?
    ensures var u := Step(s, t, c);
            && u.openers == s.openers
            && (Current(u.ctx).Some? && s.ctx.connected ==>
                  && u.ctx.ownerPid == s.ctx.ownerPid && u.ctx.ownerFile == s.ctx.ownerFile
                  && u.ctx.generation == s.ctx.generation)
  {
    QuietOpeners(s, t, c);
    QuietSteps(s, t, c);
    CreationIsQuiet(s, t, c);
    hide ControlStep, CreateStep, RealtimeStep, UnmapView, Dereference;
  }

  lemma {:induction false} StepKeepsOwner(s: State, t: nat, c: Choice)
    requires Inv(s) && OwnerOk(s) && t < |s.pcs|
    ensures OwnerOk(Step(s, t, c))
  {
    ConnectingStep(s, t, c);
    var u := Step(s, t, c);
    if s.pcs[t].SetConnected? {
      WriterAt(s, t);
      hide LocksOk, MappingOk;
    } else {
      QuietOwner(s, t, c);
      CurrentNeverAppears(s, t, c);
      hide Inv, Step;
    }
  }

  /** Without a connecting step the current section stays or goes. */
  lemma {:induction false} CurrentNeverAppears(s: State, t: nat, c: Choice)
    requires Inv(s) && t < |s.pcs| && !s.pcs[t].SetConnected?
    ensures Current(Step(s, t, c).ctx) == Current(s.ctx) || Current(Step(s, t, c).ctx).None?
  {
    StepPublishes(s, t, c);
    hide Inv;
  }

  lemma {:induction false} RunKeepsOwner(run: seq<State>, i: nat)
    requires Run(run) && i < |run|
    ensures Inv(run[i]) && OwnerOk(run[i])
  {
    RunKeepsInv(run, i);
    if i > 0 {
      RunKeepsOwner(run, i - 1);
      assert Next(run[i - 1], run[i]);
      NextKeepsOwner(run[i - 1], run[i]);
    }
    hide Inv, Step;
  }

  lemma {:induction false} NextKeepsOwner(s: State, u: State)
    requires Inv(s) && OwnerOk(s) && Next(s, u)
    ensures OwnerOk(u)
  {
    var t: nat, c: Choice :| t < |s.pcs| && u == Step(s, t, c);
    StepKeepsOwner(s, t, c);
    hide Inv, Step, OwnerOk;
  }

  /** The request is let in by the CONNECT that brought up the section now published, or by there being none. */
  ghost predicate Admits(s: State, op: Op) {
    var k := Current(s.ctx);
    match op
    case Connect(_, _, _) => k.None?
    case Disconnect(pid, file, generation) =>
      k.Some? && k.value in s.openers && s.openers[k.value] == Connect(pid, file, generation)
    case Query(pid, file, generation) =>
      k.Some? && k.value in s.openers && s.openers[k.value] == Connect(pid, file, generation)
    case Cleanup(file) =>
      k.Some? && k.value in s.openers && s.openers[k.value].Connect? && s.openers[k.value].file == file
  }

  /**
   Whether a request is admitted, in every run: a CONNECT exactly when nothing is published, a DISCONNECT and a QUERY
   exactly when process, file and generation are those of the CONNECT that brought the published section up, a CLEANUP
   exactly when its file is. A refused request goes straight to releasing the mutex. Deciding changes nothing.
   */
  lemma {:induction false} AdmissionExactly(run: seq<State>, i: nat, t: nat, c: Choice)
    requires Run(run) && i < |run| && t < |run[i].pcs| && run[i].pcs[t].Decide?
    ensures var s, u, op := run[i], Step(run[i], t, c), run[i].pcs[t].op;
            && u.ctx == s.ctx && u.sections == s.sections && u.openers == s.openers && |u.pcs| == |s.pcs|
            && u.pcs[t] ==
               (if !Admits(s, op) then UnlockMutex
                else if op.Connect? then CreateSection(op)
                else if op.Query? then ReadCursors
                else LockReset)
  {
    RunKeepsOwner(run, i);
    WriterAt(run[i], t);
    hide LocksOk, MappingOk;
  }

  // ----- what a whole call leaves behind -----

  /** Nobody else touches the device extension or a section while a thread holds the mutex. */
  lemma {:induction false} OthersKeep(s: State, t: nat, w: nat, c: Choice)
    requires LocksOk(s) && t < |s.pcs| && w < |s.pcs| && w != t && HoldsMutex(s.pcs[t])
    ensures var u := Step(s, w, c);
            && u.ctx == s.ctx && u.sections == s.sections && u.openers == s.openers && |u.pcs| == |s.pcs|
            && u.pcs[t] == s.pcs[t]
  {
    LockAt(s, t);
    LockAt(s, w);
    hide LocksOk;
  }

  /** Unmapped and released, once each. */
  predicate Released(x: Section) { !x.mapped && !x.referenced && x.unmaps == 1 && x.derefs == 1 }

  predicate Gone(s: State, k: nat) {
    s.ctx.view.None? && s.ctx.section.None? && !s.ctx.connected && k < |s.sections| && Released(s.sections[k])
  }

  /** Thread t is tearing down section k, or has done so and is about to leave. */
  ghost predicate Tearing(s: State, t: nat, k: nat) {
    t < |s.pcs| &&
    match s.pcs[t]
    case LockReset | TakeMapping => Current(s.ctx) == Some(k)
    case ClearView(view, section) => view == Some(k) && section == Some(k)
    case ClearSection(view, section) => view == Some(k) && section == Some(k)
    case ClearConnected(view, section) => view == Some(k) && section == Some(k)
    case UnlockReset(view, section) => view == Some(k) && section == Some(k)
    case Unmap(view, section) => view == Some(k) && section == Some(k)
    case Deref(section) => section == Some(k)
    case UnlockMutex => Gone(s, k)
    case _ => false
  }

  lemma {:induction false} TearingGoesOn(s: State, t: nat, k: nat, w: nat, c: Choice)
    requires Inv(s) && Tearing(s, t, k) && w < |s.pcs|
    ensures var u := Step(s, w, c);
            t < |u.pcs| && (Tearing(u, t, k) || (s.pcs[t].UnlockMutex? && u.pcs[t].Idle? && Gone(u, k)))
  {
    if w != t {
      OthersKeep(s, t, w, c);
      hide Inv, Step;
    } else {
      WriterAt(s, t);
      hide Inv;
    }
  }

  /**
   A teardown that has been admitted ends with the section down: whatever else happens meanwhile, as soon as the thread
   is out of the call nothing is published and the section has been unmapped and released exactly once.
   */
  lemma {:induction false} TeardownCompletes(run: seq<State>, i: nat, j: nat, t: nat, k: nat)
    requires Run(run) && i <= j < |run| && Tearing(run[i], t, k)
    requires forall n :: i <= n < j ==> t < |run[n].pcs| && !run[n].pcs[t].Idle?
    ensures t < |run[j].pcs| && (Tearing(run[j], t, k) || (run[j].pcs[t].Idle? && Gone(run[j], k)))
  {
    assert t < |run[i].pcs|;
    hide Inv, Step, Tearing, Gone;
    if i < j {
      TeardownCompletes(run, i, j - 1, t, k);
      RunKeepsInv(run, j - 1);
      assert Next(run[j - 1], run[j]);
      var w: nat, c: Choice :| w < |run[j - 1].pcs| && run[j] == Step(run[j - 1], w, c);
      TearingGoesOn(run[j - 1], t, k, w, c);
    }
  }

  /** A refused request leaves the device extension and every section as they were. */
  lemma {:induction false} RefusedCallLeavesNoTrace(run: seq<State>, i: nat, j: nat, t: nat)
    requires Run(run) && i <= j < |run| && t < |run[i].pcs| && run[i].pcs[t].Decide?
    requires !Admits(run[i], run[i].pcs[t].op)
    requires forall n :: i <= n < j ==> t < |run[n].pcs| && !run[n].pcs[t].Idle?
    ensures t < |run[j].pcs| && run[j].ctx == run[i].ctx && run[j].sections == run[i].sections
    ensures run[j].openers == run[i].openers
    ensures run[j].pcs[t] == run[i].pcs[t] || run[j].pcs[t].UnlockMutex? || run[j].pcs[t].Idle?
  {
    hide Inv, Step, Admits;
    if i < j {
      RefusedCallLeavesNoTrace(run, i, j - 1, t);
      RunKeepsInv(run, j - 1);
      assert Next(run[j - 1], run[j]);
      var w: nat, c: Choice :| w < |run[j - 1].pcs| && run[j] == Step(run[j - 1], w, c);
      var s := run[j - 1];
      if w != t {
        assert LocksOk(s) by { InvParts(s); }
        OthersKeep(s, t, w, c);
      } else if s.pcs[t].Decide? {
        SameAdmission(run[i], s, s.pcs[t].op);
        AdmissionExactly(run, j - 1, t, c);
      } else {
        LeavingStep(s, t, c);
      }
    }
  }

  lemma {:induction false} InvParts(s: State)
    requires Inv(s)
    ensures LocksOk(s) && MappingOk(s)
  {
  }

  lemma {:induction false} SameAdmission(s: State, u: State, op: Op)
    requires u.ctx == s.ctx && u.openers == s.openers
    ensures Admits(s, op) == Admits(u, op)
  {
  }

  lemma {:induction false} LeavingStep(s: State, t: nat, c: Choice)
    requires t < |s.pcs| && s.pcs[t].UnlockMutex?
    ensures var u := Step(s, t, c);
            u.ctx == s.ctx && u.sections == s.sections && u.openers == s.openers && |u.pcs| == |s.pcs| && u.pcs[t].Idle?
  {
  }

  /** A released section stays as it is for good. */
  lemma {:induction false} ReleasedForGood(run: seq<State>, i: nat, j: nat, k: nat)
    requires Run(run) && i <= j < |run| && k < |run[i].sections| && Released(run[i].sections[k])
    ensures k < |run[j].sections| && run[j].sections[k] == run[i].sections[k] && Current(run[j].ctx) != Some(k)
  {
    hide Inv, Step;
    RunKeepsInv(run, j);
    if i < j {
      ReleasedForGood(run, i, j - 1, k);
      RunKeepsInv(run, j - 1);
      assert Next(run[j - 1], run[j]);
      var w: nat, c: Choice :| w < |run[j - 1].pcs| && run[j] == Step(run[j - 1], w, c);
      ReleasedStays(run[j - 1], w, c, k);
    }
    ReleasedIsNotCurrent(run[j], k);
  }

  lemma {:induction false} ReleasedIsNotCurrent(s: State, k: nat)
    requires Inv(s) && k < |s.sections| && Released(s.sections[k])
    ensures Current(s.ctx) != Some(k) && Held(Writer(s)) != Some(k)
  {
    assert SectionOk(Writer(s), s.ctx, k, s.sections[k]);
    hide LocksOk, ContextOk;
  }

  lemma {:induction false} ReleasedStays(s: State, w: nat, c: Choice, k: nat)
    requires Inv(s) && w < |s.pcs| && k < |s.sections| && Released(s.sections[k])
    ensures var u := Step(s, w, c); k < |u.sections| && u.sections[k] == s.sections[k]
  {
    ReleasedIsNotCurrent(s, k);
    if HoldsMutex(s.pcs[w]) { WriterAt(s, w); }
    hide Inv, SectionsOk, ContextOk;
  }

  // ----- a call that is let through -----

  /** Thread t takes n steps in a row, all kernel calls ending the same way. */
  function Alone(s: State, t: nat, c: Choice, n: nat): State
    requires t < |s.pcs|
  {
    if n == 0 then s
    else
      var u := Alone(s, t, c, n - 1);
      if t < |u.pcs| then Step(u, t, c) else u
  }

  /** The n-th step takes the thread from one program counter to the next. */
  lemma {:induction false} StepsTo(s: State, t: nat, c: Choice, n: nat, v: State, at: Pc, u: State, to: Pc)
    requires t < |s.pcs| && 0 < n && u.pcs == v.pcs == s.pcs
    requires Alone(s, t, c, n - 1) == v.(pcs := s.pcs[t := at])
    requires Step(v.(pcs := s.pcs[t := at]), t, c) == u.(pcs := s.pcs[t := to])
    ensures Alone(s, t, c, n) == u.(pcs := s.pcs[t := to])
  {
    hide Step;
  }

  /** The section thread t is connecting, at some stage of it, with the mutex held. */
  function Stage(s: State, t: nat, mapped: bool, published: bool, ctx: Context, spin: bool): State {
    s.(mutex := Some(t), spin := if spin then Some(t) else None, ctx := ctx,
       sections := s.sections + [Section(mapped, true, 0, 0, published)])
  }

  lemma {:induction false} AdmittedAlone(s: State, t: nat, op: Op, c: Choice)
    requires t < |s.pcs| && s.pcs[t] == WaitMutex(op) && op.Connect? && s.mutex.None? && !s.ctx.connected
    ensures Alone(s, t, c, 2) == s.(mutex := Some(t), pcs := s.pcs[t := CreateSection(op)])
  {
    var held := s.(mutex := Some(t));
    assert s.pcs[t := s.pcs[t]] == s.pcs && Alone(s, t, c, 0) == s;
    hide Alone;
    StepsTo(s, t, c, 1, s, WaitMutex(op), held, Decide(op));
    StepsTo(s, t, c, 2, held, Decide(op), held, CreateSection(op));
  }

  lemma {:induction false} BuildAlone(s: State, t: nat, op: Op, c: Choice)
    requires t < |s.pcs| && op.Connect? && s.spin.None? && c.ok && !c.shortView
    requires Alone(s, t, c, 2) == s.(mutex := Some(t), pcs := s.pcs[t := CreateSection(op)])
    ensures Alone(s, t, c, 5) ==
            Stage(s, t, true, false, s.ctx, false).(pcs := s.pcs[t := LockPublish(op, |s.sections|)])
  {
    hide Alone;
    var k := |s.sections|;
    var made, ready := Stage(s, t, false, false, s.ctx, false), Stage(s, t, true, false, s.ctx, false);
    assert made.sections[k := Section(true, true, 0, 0, false)] == ready.sections;
    StepsTo(s, t, c, 3, s.(mutex := Some(t)), CreateSection(op), made, MapView(op, k));
    StepsTo(s, t, c, 4, made, MapView(op, k), ready, Initialise(op, k));
    StepsTo(s, t, c, 5, ready, Initialise(op, k), ready, LockPublish(op, k));
  }

  lemma {:induction false} PlaceAlone(s: State, t: nat, op: Op, c: Choice)
    requires t < |s.pcs| && s.spin.None?
    requires Alone(s, t, c, 5) ==
             Stage(s, t, true, false, s.ctx, false).(pcs := s.pcs[t := LockPublish(op, |s.sections|)])
    ensures Alone(s, t, c, 8)
         == Stage(s, t, true, false, s.ctx.(section := Some(|s.sections|), view := Some(|s.sections|)), true)
            .(pcs := s.pcs[t := SetConnected(op, |s.sections|)])
  {
    hide Alone;
    var k := |s.sections|;
    var ready, locked := Stage(s, t, true, false, s.ctx, false), Stage(s, t, true, false, s.ctx, true);
    var placed := Stage(s, t, true, false, s.ctx.(section := Some(k)), true);
    var viewed := Stage(s, t, true, false, s.ctx.(section := Some(k), view := Some(k)), true);
    StepsTo(s, t, c, 6, ready, LockPublish(op, k), locked, SetSection(op, k));
    StepsTo(s, t, c, 7, locked, SetSection(op, k), placed, SetView(op, k));
    StepsTo(s, t, c, 8, placed, SetView(op, k), viewed, SetConnected(op, k));
  }

  /** The same with everything published and the owner recorded. */
  function Up(s: State, t: nat, op: Op): State
    requires op.Connect?
  {
    var k := |s.sections|;
    Stage(s, t, true, true, Context(Some(k), Some(k), op.pid, Some(op.file), op.generation, true), true)
    .(openers := s.openers[k := op])
  }

  lemma {:induction false} PublishAlone(s: State, t: nat, op: Op, c: Choice)
    requires t < |s.pcs| && op.Connect?
    requires Alone(s, t, c, 8)
          == Stage(s, t, true, false, s.ctx.(section := Some(|s.sections|), view := Some(|s.sections|)), true)
             .(pcs := s.pcs[t := SetConnected(op, |s.sections|)])
    ensures Alone(s, t, c, 9) == Up(s, t, op).(pcs := s.pcs[t := UnlockPublish])
  {
    hide Alone;
    var k := |s.sections|;
    var viewed := Stage(s, t, true, false, s.ctx.(section := Some(k), view := Some(k)), true);
    assert viewed.sections[k := Section(true, true, 0, 0, true)] == Up(s, t, op).sections;
    StepsTo(s, t, c, 9, viewed, SetConnected(op, k), Up(s, t, op), UnlockPublish);
  }

  lemma {:induction false} LeaveAlone(s: State, t: nat, up: State, c: Choice)
    requires t < |s.pcs| && up.pcs == s.pcs && Alone(s, t, c, 9) == up.(pcs := s.pcs[t := UnlockPublish])
    ensures Alone(s, t, c, 11) == up.(spin := None, mutex := None, pcs := s.pcs[t := Idle])
  {
    hide Alone;
    StepsTo(s, t, c, 10, up, UnlockPublish, up.(spin := None), UnlockMutex);
    StepsTo(s, t, c, 11, up.(spin := None), UnlockMutex, up.(spin := None, mutex := None), Idle);
  }

  /** A CONNECT that nobody and no failure holds up publishes a new section under its own name. */
  lemma {:induction false} ConnectAlone(s: State, t: nat, op: Op, c: Choice)
    requires t < |s.pcs| && s.pcs[t] == WaitMutex(op) && op.Connect? && s.mutex.None? && s.spin.None?
    requires !s.ctx.connected && c.ok && !c.shortView
    ensures var k := |s.sections|;
            Alone(s, t, c, 11)
            == State(Context(Some(k), Some(k), op.pid, Some(op.file), op.generation, true), None, None,
                     s.sections + [Section(true, true, 0, 0, true)], s.pcs[t := Idle], s.fault, s.openers[k := op])
  {
    hide Alone, Step, Stage, Up;
    AdmittedAlone(s, t, op, c);
    BuildAlone(s, t, op, c);
    PlaceAlone(s, t, op, c);
    PublishAlone(s, t, op, c);
    UpIs(s, t, op);
    LeaveAlone(s, t, Up(s, t, op), c);
  }

  lemma {:induction false} UpIs(s: State, t: nat, op: Op)
    requires op.Connect?
    ensures var k := |s.sections|;
            Up(s, t, op) ==
              State(Context(Some(k), Some(k), op.pid, Some(op.file), op.generation, true), Some(t), Some(t),
                                  s.sections + [Section(true, true, 0, 0, true)], s.pcs, s.fault, s.openers[k := op])
  {
  }

  lemma {:induction false} TakeAlone(s: State, t: nat, k: nat, c: Choice)
    requires t < |s.pcs| && s.pcs[t].LockReset? && s.spin.None? && s.ctx.view == Some(k) == s.ctx.section
    ensures Alone(s, t, c, 3) ==
            s.(spin := Some(t), ctx := s.ctx.(view := None), pcs := s.pcs[t := ClearSection(Some(k), Some(k))])
  {
    var both := Some(k);
    assert s.pcs[t := s.pcs[t]] == s.pcs && Alone(s, t, c, 0) == s;
    hide Alone;
    var locked := s.(spin := Some(t));
    StepsTo(s, t, c, 1, s, LockReset, locked, TakeMapping);
    StepsTo(s, t, c, 2, locked, TakeMapping, locked, ClearView(both, both));
    StepsTo(s, t, c, 3, locked, ClearView(both, both), locked.(ctx := s.ctx.(view := None)), ClearSection(both, both));
  }

  lemma {:induction false} DetachAlone(s: State, t: nat, k: nat, c: Choice)
    requires t < |s.pcs|
    requires Alone(s, t, c, 3) ==
             s.(spin := Some(t), ctx := s.ctx.(view := None), pcs := s.pcs[t := ClearSection(Some(k), Some(k))])
    ensures Alone(s, t, c, 6) == s.(spin := None, ctx := NO_CONNECTION, pcs := s.pcs[t := Unmap(Some(k), Some(k))])
  {
    hide Alone;
    var both := Some(k);
    var detached := s.(spin := Some(t), ctx := s.ctx.(view := None, section := None));
    var cleared := s.(spin := Some(t), ctx := NO_CONNECTION);
    StepsTo(s, t, c, 4, s.(spin := Some(t), ctx := s.ctx.(view := None)), ClearSection(both, both), detached,
      ClearConnected(both, both));
    StepsTo(s, t, c, 5, detached, ClearConnected(both, both), cleared, UnlockReset(both, both));
    StepsTo(s, t, c, 6, cleared, UnlockReset(both, both), cleared.(spin := None), Unmap(both, both));
  }

  /** A teardown that nobody holds up is over after nine steps, with the section down. */
  lemma {:induction false} TeardownAlone(s: State, t: nat, k: nat, c: Choice)
    requires Inv(s) && t < |s.pcs| && s.pcs[t].LockReset? && s.spin.None? && Current(s.ctx) == Some(k)
    ensures var u := Alone(s, t, c, 9);
            |u.pcs| == |s.pcs| && u.pcs[t].Idle? && Gone(u, k) && u.mutex.None? && u.spin.None?
  {
    WriterAt(s, t);
    assert SectionOk(s.pcs[t], s.ctx, k, s.sections[k]);
    hide Alone, Inv, Step, SectionsOk, Gone;
    TakeAlone(s, t, k, c);
    DetachAlone(s, t, k, c);
    ReleaseAlone(s, t, k, c);
  }

  lemma {:induction false} ReleaseAlone(s: State, t: nat, k: nat, c: Choice)
    requires t < |s.pcs| && k < |s.sections| && s.sections[k].mapped && s.sections[k].referenced
    requires s.sections[k].unmaps == 0 && s.sections[k].derefs == 0
    requires Alone(s, t, c, 6) == s.(spin := None, ctx := NO_CONNECTION, pcs := s.pcs[t := Unmap(Some(k), Some(k))])
    ensures var u := Alone(s, t, c, 9);
            |u.pcs| == |s.pcs| && u.pcs[t].Idle? && Gone(u, k) && u.mutex.None? && u.spin.None?
  {
    hide Alone;
    var cleared := s.(spin := None, ctx := NO_CONNECTION);
    var unmapped := cleared.(sections := s.sections[k := s.sections[k].(mapped := false, unmaps := 1)]);
    var x := s.sections[k].(mapped := false, unmaps := 1, referenced := false, derefs := 1);
    var released := cleared.(sections := s.sections[k := x]);
    assert unmapped.sections[k := released.sections[k]] == released.sections;
    StepsTo(s, t, c, 7, cleared, Unmap(Some(k), Some(k)), unmapped, Deref(Some(k)));
    StepsTo(s, t, c, 8, unmapped, Deref(Some(k)), released, UnlockMutex);
    StepsTo(s, t, c, 9, released, UnlockMutex, released.(mutex := None), Idle);
  }
}
