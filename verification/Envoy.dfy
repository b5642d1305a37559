/** The Envoy manager: a mutex, the fields it guards, and the critical sections of
    Start, Stop, the watch loop and the waiters. Children are numbered in the order
    in which they were started; a child's number also names its exit channel. */
module Envoy {
  import opened Model

  /** What the mutex guards. `waitErr` says whose exit result is stored; `ctx` and
      `cancel` say whether the field is set. */
  datatype Fields = Fields(cmd: Option<nat>, waitDone: Option<nat>, waitErr: Option<nat>, ctx: bool, cancel: bool)

  const UNUSED := Fields(None, None, None, false, false)

  function Opened(f: Fields): Fields { f.(ctx := true, cancel := true) }

  function Launched(f: Fields, child: nat): Fields {
    f.(cmd := Some(child), waitDone := Some(child), waitErr := None)
  }

  function Uncancellable(f: Fields): Fields { f.(cancel := false) }

  function Stopped(f: Fields): Fields {
    f.(cmd := None, waitDone := None, waitErr := None, ctx := false)
  }

  function Cleared(f: Fields, exited: nat): Fields {
    if f.cmd == Some(exited) then f.(cmd := None, waitDone := None, waitErr := None) else f
  }

  function Recorded(f: Fields, child: nat): Fields { f.(waitErr := Some(child)) }

  /** The manager's fields and what each critical section does to them. */
  class Manager {
    var cmd: Option<nat>
    var waitDone: Option<nat>
    var waitErr: Option<nat>
    var ctx: bool
    var cancel: bool

    constructor ()
      ensures Current() == UNUSED
    {
      cmd, waitDone, waitErr, ctx, cancel := None, None, None, false, false;
    }

    function Current(): Fields
      reads this
    {
      Fields(cmd, waitDone, waitErr, ctx, cancel)
    }

    /** The sequential reading of Start; `launched` is the child that exec started. */
    method Start(launched: Option<nat>) returns (ok: bool)
      modifies this
      ensures ok <==> old(cancel) || launched.Some?
      ensures Current() == if old(cancel) then old(Current())
                           else if launched.Some? then Launched(Opened(old(Current())), launched.value)
                           else Uncancellable(Opened(old(Current())))
      ensures cancel <==> ok
      ensures old(cancel) ==> Current() == old(Current())
      ensures !old(cancel) ==> ctx
      ensures !old(cancel) && ok ==> cmd == launched && waitDone == launched && waitErr == None
      ensures !ok ==> cmd == old(cmd) && waitDone == old(waitDone) && waitErr == old(waitErr)
    {
      if cancel {
        return true;
      }
      OpenContext();
      ok := StartProcessLocked(launched);
      if !ok {
        AbandonStart();
      }
    }

    method OpenContext()
      modifies this
      ensures Current() == Opened(old(Current()))
      ensures Current() == old(Current()).(ctx := true, cancel := true)
    {
      ctx, cancel := true, true;
    }

    method AbandonStart()
      modifies this
      ensures Current() == Uncancellable(old(Current()))
      ensures Current() == old(Current()).(cancel := false)
    {
      cancel := false;
    }

    method StartProcessLocked(launched: Option<nat>) returns (ok: bool)
      modifies this
      ensures ok <==> launched.Some?
      ensures Current() == if launched.Some? then Launched(old(Current()), launched.value) else old(Current())
      ensures !ok ==> Current() == old(Current())
      ensures ok ==> Current() == old(Current()).(cmd := launched, waitDone := launched, waitErr := None)
    {
      if launched.None? {
        return false;
      }
      cmd := launched;
      waitDone := launched;
      waitErr := None;
      return true;
    }

    /** The sequential reading of Stop, told whether the signal could be sent, whether
        the exit was seen before Stop's context ended, and whether it was clean. */
    method Stop(signalled: bool, seen: bool, clean: bool) returns (ok: bool)
      modifies this
      ensures ok <==> !old(cancel) || old(cmd).None? || (signalled && seen && clean)
      ensures Current() == if old(cancel) && old(cmd).Some? && ok then Stopped(Uncancellable(old(Current())))
                           else Uncancellable(old(Current()))
      ensures !old(cancel) ==> ok && Current() == old(Current())
      ensures old(cancel) && old(cmd).None? ==> ok && Current() == old(Current()).(cancel := false)
      ensures old(cancel) && old(cmd).Some? && ok ==> Current() == Fields(None, None, None, false, false)
      ensures !ok ==> Current() == old(Current()).(cancel := false)
    {
      var cancelled, child := BeginStop();
      if !cancelled || child.None? {
        return true;
      }
      if !signalled || !seen || !clean {
        return false;
      }
      FinishStop();
      return true;
    }

    /** Stop up to its signal: whether it cancelled, and the child left to signal. */
    method BeginStop() returns (cancelled: bool, child: Option<nat>)
      modifies this
      ensures cancelled == old(cancel)
      ensures child == if old(cancel) then old(cmd) else None
      ensures Current() == Uncancellable(old(Current()))
      ensures Current() == old(Current()).(cancel := false)
    {
      if !cancel {
        return false, None;
      }
      cancel := false;
      return true, cmd;
    }

    method FinishStop()
      modifies this
      ensures Current() == Stopped(old(Current()))
      ensures Current() == Fields(None, None, None, false, old(cancel))
    {
      cmd, waitDone, waitErr, ctx := None, None, None, false;
    }

    method ClearExited(exited: nat)
      modifies this
      ensures Current() == Cleared(old(Current()), exited)
      ensures old(cmd) == Some(exited) ==> Current() == old(Current()).(cmd := None, waitDone := None, waitErr := None)
      ensures old(cmd) != Some(exited) ==> Current() == old(Current())
    {
      if cmd == Some(exited) {
        cmd, waitDone, waitErr := None, None, None;
      }
    }

    method RecordExit(child: nat)
      modifies this
      ensures Current() == Recorded(old(Current()), child)
      ensures Current() == old(Current()).(waitErr := Some(child))
    {
      waitErr := Some(child);
    }

    /** The manager's part in an event of the threads below: at every event the fields
        become what the transition system says. */
    method Perform(s: System, e: Event)
      requires Current() == s.m && Enabled(s, e)
      modifies this
      ensures Current() == Step(s, e).m
    {
      match e
      case StartLocks => OpenContext();
      case StartExecs(ok) =>
        var started := StartProcessLocked(if ok then Some(|s.children|) else None);
        if !started {
          AbandonStart();
        }
      case StopLocks(_) =>
        var cancelled, child := BeginStop();
      case StopSeesExit(_, clean) =>
        if clean {
          FinishStop();
        }
      case LoopClears => ClearExited(s.loop.cmd);
      case LoopExecs(ok) =>
        var started := StartProcessLocked(if ok then Some(|s.children|) else None);
      case WaiterRecords(c) => RecordExit(c);
      case _ =>
    }
  }

  // ----------------------------------------------------------------- threads

  datatype Holder = Free | Starter | Stopper(id: nat) | Loop

  datatype StartPc = NotCalled | Launching | StartedOk | StartFailed

  /** A Stop that holds the mutex: before its signal, then waiting for the exit. */
  datatype StopPc = Signalling | AwaitingExit

  /** The watch loop, by the action it takes next. `cmd` and `done` are its locals;
      a nil channel is never closed. */
  datatype LoopPc =
    | NotRunning
    | AtTop
    | ReadsChannel(cmd: nat)
    | AwaitsExit(cmd: nat, done: Option<nat>)
    | Clears(cmd: nat)
    | Checks
    | BacksOff
    | LocksToRestart
    | Restarting
    | Returned

  datatype WaiterPc = InWait | HasReaped | HasRecorded | HasClosed

  /** A started child and its waiter, with the number of Wait calls that returned and
      of times its channel was closed. */
  datatype Child = Child(exited: bool, waiter: WaiterPc, waits: nat, closes: nat)

  const FRESH := Child(false, InWait, 0, 0)

  datatype System = System(
    m: Fields, holder: Holder, cancelled: bool, parentCancelled: bool,
    start: StartPc, stops: map<nat, StopPc>, loop: LoopPc, children: seq<Child>, restarts: nat)
  {
    /** ctx.Err() != nil */
    predicate CtxDone() { cancelled || parentCancelled }

    predicate Closed(c: nat) { c < |children| && children[c].waiter == HasClosed }
  }

  const INITIAL := System(UNUSED, Free, false, false, NotCalled, map[], NotRunning, [], 0)

  datatype Event =
    | StartLocks
    | StartExecs(ok: bool)
    | StopLocks(id: nat)
    | StopSignals(id: nat, ok: bool)
    | StopSeesExit(id: nat, clean: bool)
    | StopTimesOut(id: nat)
    | LoopReads
    | LoopReadsChannel
    | LoopSeesExit
    | LoopClears
    | LoopChecks
    | LoopBackoffEnds
    | LoopBackoffCancelled
    | LoopLocks
    | LoopExecs(ok: bool)
    | ChildExits(c: nat)
    | WaitReturns(c: nat)
    | WaiterRecords(c: nat)
    | WaiterCloses(c: nat)
    | ParentCancels

  predicate Enabled(s: System, e: Event) {
    match e
    case StartLocks => s.start == NotCalled && s.holder == Free
    case StartExecs(_) => s.start == Launching
    case StopLocks(id) => id !in s.stops && s.holder == Free
    case StopSignals(id, _) => id in s.stops && s.stops[id] == Signalling
    case StopSeesExit(id, _) =>
      id in s.stops && s.stops[id] == AwaitingExit && s.m.waitDone.Some? && s.Closed(s.m.waitDone.value)
    case StopTimesOut(id) => id in s.stops && s.stops[id] == AwaitingExit
    case LoopReads => s.loop == AtTop && s.holder == Free
    case LoopReadsChannel => s.loop.ReadsChannel?
    case LoopSeesExit => s.loop.AwaitsExit? && s.loop.done.Some? && s.Closed(s.loop.done.value)
    case LoopClears => s.loop.Clears? && s.holder == Free
    case LoopChecks => s.loop == Checks
    case LoopBackoffEnds => s.loop == BacksOff
    case LoopBackoffCancelled => s.loop == BacksOff && s.CtxDone()
    case LoopLocks => s.loop == LocksToRestart && s.holder == Free
    case LoopExecs(_) => s.loop == Restarting
    case ChildExits(c) => c < |s.children|
    case WaitReturns(c) => c < |s.children| && s.children[c].exited && s.children[c].waiter == InWait
    case WaiterRecords(c) => c < |s.children| && s.children[c].waiter == HasReaped && s.holder == Free
    case WaiterCloses(c) => c < |s.children| && s.children[c].waiter == HasRecorded
    case ParentCancels => true
  }

  function Launch(s: System): System {
    s.(m := Launched(s.m, |s.children|), children := s.children + [FRESH], holder := Free)
  }

  /** Exec may fail for any reason; its own look at the context is not relied on. */
  function StartStep(s: System, e: Event): System
    requires e.StartLocks? || e.StartExecs?
  {
    if e.StartLocks? then s.(m := Opened(s.m), holder := Starter, start := Launching)
    else if e.ok then Launch(s).(start := StartedOk, loop := AtTop)
    else s.(m := Uncancellable(s.m), holder := Free, cancelled := true, start := StartFailed)
  }

  function StopReturns(s: System, id: nat): System {
    s.(holder := Free, stops := s.stops - {id})
  }

  function StopStep(s: System, e: Event): System
    requires e.StopLocks? || e.StopSignals? || e.StopSeesExit? || e.StopTimesOut?
  {
    match e
    case StopLocks(id) =>
      if !s.m.cancel then s
      else
        var t := s.(m := Uncancellable(s.m), cancelled := true);
        if t.m.cmd.None? then t else t.(holder := Stopper(id), stops := s.stops[id := Signalling])
    case StopSignals(id, ok) => if ok then s.(stops := s.stops[id := AwaitingExit]) else StopReturns(s, id)
    case StopSeesExit(id, clean) => if clean then StopReturns(s, id).(m := Stopped(s.m)) else StopReturns(s, id)
    case StopTimesOut(id) => StopReturns(s, id)
  }

  predicate OfLoop(e: Event) {
    || e.LoopReads? || e.LoopReadsChannel? || e.LoopSeesExit? || e.LoopClears? || e.LoopChecks?
    || e.LoopBackoffEnds? || e.LoopBackoffCancelled? || e.LoopLocks? || e.LoopExecs?
  }

  function LoopStep(s: System, e: Event): System
    requires OfLoop(e) && Enabled(s, e)
  {
    match e
    case LoopReads => s.(loop := if !s.m.ctx || s.m.cmd.None? then Returned else ReadsChannel(s.m.cmd.value))
    case LoopReadsChannel => s.(loop := AwaitsExit(s.loop.cmd, s.m.waitDone))
    case LoopSeesExit => s.(loop := Clears(s.loop.cmd))
    case LoopClears => s.(m := Cleared(s.m, s.loop.cmd), loop := Checks)
    case LoopChecks => if s.CtxDone() then s.(loop := Returned) else s.(loop := BacksOff, restarts := s.restarts + 1)
    case LoopBackoffEnds => s.(loop := LocksToRestart)
    case LoopBackoffCancelled => s.(loop := Returned)
    case LoopLocks => if !s.m.ctx || s.CtxDone() then s.(loop := Returned) else s.(holder := Loop, loop := Restarting)
    case LoopExecs(ok) => (if ok then Launch(s) else s.(holder := Free)).(loop := AtTop)
  }

  predicate OfChild(e: Event) { e.ChildExits? || e.WaitReturns? || e.WaiterRecords? || e.WaiterCloses? }

  function ChildStep(s: System, e: Event): System
    requires OfChild(e) && Enabled(s, e)
  {
    var child := s.children[e.c];
    match e
    case ChildExits(c) => s.(children := s.children[c := child.(exited := true)])
    case WaitReturns(c) => s.(children := s.children[c := child.(waiter := HasReaped, waits := child.waits + 1)])
    case WaiterRecords(c) => s.(m := Recorded(s.m, c), children := s.children[c := child.(waiter := HasRecorded)])
    case WaiterCloses(c) => s.(children := s.children[c := child.(waiter := HasClosed, closes := child.closes + 1)])
  }

  function Step(s: System, e: Event): System
    requires Enabled(s, e)
  {
    if e.StartLocks? || e.StartExecs? then StartStep(s, e)
    else if OfLoop(e) then LoopStep(s, e)
    else if OfChild(e) then ChildStep(s, e)
    else if e.ParentCancels? then s.(parentCancelled := true)
    else StopStep(s, e)
  }

  /** Every event in turn, if each is enabled when it comes. */
  function Follow(s: System, events: seq<Event>): Option<System>
    decreases |events|
  {
    if events == [] then Some(s)
    else if Enabled(s, events[0]) then Follow(Step(s, events[0]), events[1..])
    else None
  }

  // --------------------------------------------------------------- invariant

  predicate ChildOk(c: Child) {
    && c.waits == (if c.waiter == InWait then 0 else 1)
    && c.closes == (if c.waiter == HasClosed then 1 else 0)
    && (c.waiter != InWait ==> c.exited)
  }

  /** Only the newest child may have a waiter that is not done. */
  predicate ChildrenOk(children: seq<Child>) {
    && (forall c :: 0 <= c < |children| ==> ChildOk(children[c]))
    && (forall c :: 0 <= c < |children| - 1 ==> children[c].waiter == HasClosed)
  }

  /** The fields speak of the newest child, and of its own exit. */
  predicate FieldsOk(m: Fields, children: seq<Child>) {
    && m.cmd == m.waitDone
    && (m.cmd.Some? ==> m.cmd.value + 1 == |children|)
    && (m.cmd.Some? && children[m.cmd.value].waiter in {HasRecorded, HasClosed} ==> m.waitErr == m.cmd)
  }

  /** A thread is inside a long critical section exactly when it holds the mutex. */
  predicate LockOk(s: System) {
    && (s.holder == Starter <==> s.start == Launching)
    && (s.holder == Loop <==> s.loop == Restarting)
    && s.stops.Keys == (if s.holder.Stopper? then {s.holder.id} else {})
  }

  predicate CancelOk(s: System) {
    && (s.start == NotCalled ==> s.m == UNUSED)
    && (s.start == Launching ==> s.m.cancel)
    && (s.m.cancel ==> s.m.ctx)
    && (s.start == StartedOk && !s.cancelled ==> s.m.cancel)
    && (s.cancelled ==> !s.m.cancel && s.loop != Restarting && s.start in {StartedOk, StartFailed})
    && (s.holder.Stopper? ==> s.cancelled && s.m.cmd.Some?)
  }

  predicate LastClosed(s: System) { |s.children| > 0 && s.Closed(|s.children| - 1) }

  predicate LoopOk(s: System) {
    match s.loop
    case NotRunning => s.start != StartedOk && |s.children| == s.restarts == 0
    case AtTop =>
      && s.start == StartedOk && |s.children| > 0 && s.restarts <= |s.children| <= s.restarts + 1
      && (s.m.cmd.Some? ==> |s.children| == s.restarts + 1)
    case ReadsChannel(c) =>
      s.start == StartedOk && c + 1 == |s.children| == s.restarts + 1 && (s.m.cmd.None? <==> !s.m.ctx)
    case AwaitsExit(c, done) =>
      && s.start == StartedOk && c + 1 == |s.children| == s.restarts + 1
      && (done.Some? ==> done.value == c) && (!s.cancelled ==> done.Some?)
    case Clears(c) => s.start == StartedOk && c + 1 == |s.children| == s.restarts + 1 && LastClosed(s)
    case Checks => s.start == StartedOk && |s.children| == s.restarts + 1 && LastClosed(s) && s.m.cmd.None?
    case Returned => s.start == StartedOk && |s.children| > 0 && s.restarts <= |s.children| <= s.restarts + 1
    case _ => s.start == StartedOk && |s.children| == s.restarts && LastClosed(s) && s.m.cmd.None?
  }

  predicate Inv(s: System) {
    ChildrenOk(s.children) && FieldsOk(s.m, s.children) && LockOk(s) && CancelOk(s) && LoopOk(s)
  }

  lemma StartKeeps(s: System, e: Event)
    requires Inv(s) && Enabled(s, e) && (e.StartLocks? || e.StartExecs?)
    ensures Inv(Step(s, e))
  {
  }

  lemma StopLockKeeps(s: System, id: nat)
    requires Inv(s) && Enabled(s, StopLocks(id))
    ensures Inv(Step(s, StopLocks(id)))
  {
    hide ChildOk;
  }

  lemma StopReturnKeeps(s: System, id: nat, m: Fields)
    requires Inv(s) && id in s.stops && (m == s.m || m == Stopped(s.m))
    ensures Inv(StopReturns(s, id).(m := m))
  {
    hide ChildOk;
    assert s.stops.Keys - {id} == {};
  }

  lemma StopSignalKeeps(s: System, id: nat)
    requires Inv(s) && Enabled(s, StopSignals(id, true))
    ensures Inv(Step(s, StopSignals(id, true)))
  {
    hide ChildOk;
    assert s.stops[id := AwaitingExit].Keys == s.stops.Keys;
  }

  lemma StopKeeps(s: System, e: Event)
    requires Inv(s) && Enabled(s, e) && (e.StopLocks? || e.StopSignals? || e.StopSeesExit? || e.StopTimesOut?)
    ensures Inv(Step(s, e))
  {
    hide Inv;
    if e.StopLocks? {
      StopLockKeeps(s, e.id);
    } else if e.StopSignals? && e.ok {
      StopSignalKeeps(s, e.id);
    } else {
      StopReturnKeeps(s, e.id, if e.StopSeesExit? && e.clean then Stopped(s.m) else s.m);
      hide Stopped;
    }
  }

  lemma LoopExecKeeps(s: System, ok: bool)
    requires Inv(s) && Enabled(s, LoopExecs(ok))
    ensures Inv(Step(s, LoopExecs(ok)))
  {
    assert ChildOk(FRESH);
    hide ChildOk;
  }

  lemma LoopClearKeeps(s: System)
    requires Inv(s) && Enabled(s, LoopClears)
    ensures Inv(Step(s, LoopClears))
  {
    hide ChildrenOk;
  }

  lemma LoopWaitKeeps(s: System, e: Event)
    requires Inv(s) && Enabled(s, e) && (e.LoopReads? || e.LoopReadsChannel? || e.LoopSeesExit?)
    ensures Inv(Step(s, e))
  {
    assert s.m.cmd == s.m.waitDone && (s.m.cmd.Some? ==> s.m.cmd.value + 1 == |s.children|);
    hide ChildrenOk, FieldsOk;
  }

  lemma LoopBackoffKeeps(s: System, e: Event)
    requires Inv(s) && Enabled(s, e)
    requires e.LoopChecks? || e.LoopBackoffEnds? || e.LoopBackoffCancelled? || e.LoopLocks?
    ensures Inv(Step(s, e))
  {
    hide ChildrenOk, FieldsOk;
  }

  lemma LoopKeeps(s: System, e: Event)
    requires Inv(s) && Enabled(s, e) && OfLoop(e)
    ensures Inv(Step(s, e))
  {
    hide Inv, Step, Enabled;
    if e.LoopExecs? {
      LoopExecKeeps(s, e.ok);
    } else if e.LoopClears? {
      LoopClearKeeps(s);
    } else if e.LoopReads? || e.LoopReadsChannel? || e.LoopSeesExit? {
      LoopWaitKeeps(s, e);
    } else {
      LoopBackoffKeeps(s, e);
    }
  }

  lemma ChildKeeps(s: System, e: Event)
    requires Inv(s) && Enabled(s, e) && OfChild(e)
    ensures Inv(Step(s, e))
  {
    var s' := Step(s, e);
    assert ChildOk(s.children[e.c]) && ChildOk(s'.children[e.c]);
    hide ChildOk;
    assert s'.children == s.children[e.c := s'.children[e.c]];
  }

  lemma StepKeeps(s: System, e: Event)
    requires Inv(s) && Enabled(s, e)
    ensures Inv(Step(s, e))
  {
    if e.StartLocks? || e.StartExecs? {
      hide *;
      StartKeeps(s, e);
    } else if OfLoop(e) {
      hide *;
      LoopKeeps(s, e);
    } else if OfChild(e) {
      hide *;
      ChildKeeps(s, e);
    } else if !e.ParentCancels? {
      hide *;
      StopKeeps(s, e);
    }
  }

  lemma {:induction false} RunsKeepInvariant(s: System, events: seq<Event>)
    requires Inv(s) && Follow(s, events).Some?
    ensures Inv(Follow(s, events).value)
    decreases |events|
  {
    hide Inv, Step, Enabled;
    if events == [] {
    } else {
      StepKeeps(s, events[0]);
      RunsKeepInvariant(Step(s, events[0]), events[1..]);
    }
  }

  // -------------------------------------------------------------- guarantees

  ghost predicate Reachable(s: System) {
    exists events :: Follow(INITIAL, events) == Some(s)
  }

  lemma ReachableOk(s: System)
    requires Reachable(s)
    ensures Inv(s)
  {
    var events :| Follow(INITIAL, events) == Some(s);
    assert Inv(INITIAL);
    RunsKeepInvariant(INITIAL, events);
  }

  function Unreaped(children: seq<Child>): set<nat> {
    set c: nat | c < |children| && children[c].waiter == InWait
  }

  /** Under every interleaving at most one child is started and not reaped, and it is
      the newest one. */
  lemma AtMostOneChildUnreaped(s: System)
    requires Reachable(s)
    ensures Unreaped(s.children) <= {|s.children| - 1}
  {
    ReachableOk(s);
  }

  /** Wait is called once per child and its channel closed once, in that order, and
      each happens exactly when the waiter gets there. */
  lemma EachChildIsReapedOnce(s: System, c: nat)
    requires Reachable(s) && c < |s.children|
    ensures s.children[c].closes <= s.children[c].waits <= 1
    ensures s.children[c].waits == 1 <==> s.children[c].waiter != InWait
    ensures s.children[c].closes == 1 <==> s.children[c].waiter == HasClosed
    ensures s.children[c].waits == 1 ==> s.children[c].exited
  {
    ReachableOk(s);
    assert ChildOk(s.children[c]);
  }

  /** What a Stop reads as its child's exit result is that child's, never an older one's. */
  lemma StopReadsItsOwnChild(s: System, id: nat)
    requires Reachable(s) && Enabled(s, StopSeesExit(id, true))
    ensures s.m.cmd.Some? && s.m.waitErr == s.m.waitDone == s.m.cmd && s.m.cmd.value == |s.children| - 1
  {
    ReachableOk(s);
  }

  /** Every child but the first is paid for by one counted restart, and every counted
      restart but the last has started a child. */
  lemma ChildrenMatchRestarts(s: System)
    requires Reachable(s)
    ensures s.restarts <= |s.children| <= s.restarts + 1
  {
    ReachableOk(s);
  }

  /** Threads inside a critical section that spans several steps. */
  function Inside(s: System): set<Holder> {
    (if s.start == Launching then {Starter} else {})
    + (if s.loop == Restarting then {Loop} else {})
    + (set id | id in s.stops :: Stopper(id))
  }

  lemma MutualExclusion(s: System)
    requires Reachable(s)
    ensures Inside(s) == if s.holder == Free then {} else {s.holder}
  {
    ReachableOk(s);
  }

  predicate Execs(e: Event) { e == StartExecs(true) || e == LoopExecs(true) }

  lemma OnlyExecsLaunch(s: System, e: Event)
    requires Enabled(s, e)
    ensures Execs(e) ==> Step(s, e).children == s.children + [FRESH]
    ensures !Execs(e) ==> |Step(s, e).children| == |s.children|
  {
  }

  /** A child is started by the one Start or by the watch loop, in their critical
      section, and never once Stop has cancelled. */
  lemma ChildrenStartUncancelled(s: System, e: Event)
    requires Reachable(s) && Enabled(s, e) && |Step(s, e).children| > |s.children|
    ensures Step(s, e).children == s.children + [FRESH]
    ensures (s.holder == Starter && e.StartExecs?) || (s.holder == Loop && e.LoopExecs?)
    ensures !s.cancelled
  {
    OnlyExecsLaunch(s, e);
    hide Step;
    ReachableOk(s);
    hide ChildrenOk, FieldsOk, LoopOk;
  }

  /** Stop has cancelled, or the watch loop has ended or is about to. */
  predicate NoMoreChildren(s: System) {
    s.cancelled || s.loop == Returned || (s.loop == AtTop && s.m.cmd.None?)
  }

  /** Start is still to come or under way; or the manager has started and its loop
      supervises, and the parent's context, if it is not too late, has not ended. */
  predicate MayStartAnother(s: System) {
    || s.start in {NotCalled, Launching}
    || (s.start == StartedOk && !NoMoreChildren(s) && (!s.parentCancelled || s.loop == Restarting))
  }

  lemma StepStartsNone(s: System, e: Event)
    requires Inv(s) && !MayStartAnother(s) && Enabled(s, e)
    ensures !MayStartAnother(Step(s, e)) && |Step(s, e).children| == |s.children|
  {
    hide ChildrenOk;
  }

  lemma {:induction false} StartsNone(s: System, events: seq<Event>)
    requires Inv(s) && !MayStartAnother(s) && Follow(s, events).Some?
    ensures |Follow(s, events).value.children| == |s.children|
    decreases |events|
  {
    hide Inv, MayStartAnother, Step, Enabled;
    if events == [] {
    } else {
      StepKeeps(s, events[0]);
      StepStartsNone(s, events[0]);
      StartsNone(Step(s, events[0]), events[1..]);
    }
  }

  /** Once Stop has cancelled under the lock, no child is ever started again. */
  lemma NoChildAfterStop(s: System, id: nat, events: seq<Event>)
    requires Reachable(s) && Enabled(s, StopLocks(id)) && s.m.cancel
    requires Follow(Step(s, StopLocks(id)), events).Some?
    ensures |Follow(Step(s, StopLocks(id)), events).value.children| == |s.children|
  {
    ReachableOk(s);
    StepKeeps(s, StopLocks(id));
    StartsNone(Step(s, StopLocks(id)), events);
  }

  /** Once the parent's context has ended, no child is ever started again unless a restart
      had already begun. */
  lemma NoChildAfterParent(s: System, events: seq<Event>)
    requires Reachable(s) && s.start == StartedOk && s.parentCancelled && s.loop != Restarting
    requires Follow(s, events).Some?
    ensures |Follow(s, events).value.children| == |s.children|
  {
    ReachableOk(s);
    StartsNone(s, events);
  }

  /** Once the context has ended, by a Stop or by the parent, an exit is deliberate: no
      continuation counts another restart. */
  lemma {:induction false} DeliberateStopsAreNotCounted(s: System, events: seq<Event>)
    requires (s.cancelled || s.parentCancelled) && Follow(s, events).Some?
    ensures Follow(s, events).value.restarts == s.restarts
    ensures Follow(s, events).value.cancelled || Follow(s, events).value.parentCancelled
    decreases |events|
  {
    hide Step, Enabled;
    if events != [] {
      DoneStays(s, events[0]);
      DeliberateStopsAreNotCounted(Step(s, events[0]), events[1..]);
    }
  }

  lemma DoneStays(s: System, e: Event)
    requires (s.cancelled || s.parentCancelled) && Enabled(s, e)
    ensures Step(s, e).restarts == s.restarts
    ensures Step(s, e).cancelled || Step(s, e).parentCancelled
  {
  }

  /** Until then each exit the loop has cleared is counted as one restart. */
  lemma RestartIsCountedExactlyWhen(s: System, e: Event)
    requires Enabled(s, e)
    ensures Step(s, e).restarts
         == s.restarts + (if s.loop == Checks && e == LoopChecks && !s.cancelled && !s.parentCancelled then 1 else 0)
  {
  }

  /** The child is let go exactly when a Stop saw it exit cleanly or the loop clears the
      one it waited for. */
  lemma ChildGoesExactlyWhen(s: System, e: Event)
    requires Enabled(s, e) && s.m.cmd.Some?
    ensures Step(s, e).m.cmd.None? <==>
              (e.StopSeesExit? && e.clean) || (e.LoopClears? && s.loop == Clears(s.m.cmd.value))
  {
    if OfLoop(e) {
      hide StopStep, ChildStep, StartStep;
    } else if OfChild(e) {
      hide StopStep, LoopStep, StartStep;
    } else {
      hide LoopStep, ChildStep;
    }
  }

  /** The context goes with such a Stop only, the means to cancel when a Stop takes the
      mutex or Start fails. */
  lemma ContextGoesExactlyWhen(s: System, e: Event)
    requires Enabled(s, e)
    ensures s.m.ctx && !Step(s, e).m.ctx <==> e.StopSeesExit? && e.clean && s.m.ctx
    ensures s.m.cancel && !Step(s, e).m.cancel <==> s.m.cancel && (e.StopLocks? || e == StartExecs(false))
  {
  }

  /** A Stop whose signal fails, whose wait times out or whose child exits badly is over and
      leaves the fields as they are. */
  lemma FailedStopLeavesTheFields(s: System, e: Event)
    requires Enabled(s, e) && ((e.StopSignals? && !e.ok) || e.StopTimesOut? || (e.StopSeesExit? && !e.clean))
    ensures var t := Step(s, e);
            t == s.(holder := t.holder, stops := t.stops) && t.holder == Free && t.stops == s.stops - {e.id}
  {
  }

  /** A restart that fails is not tried again: it ends the supervision. */
  lemma FailedRestartIsFinal(s: System, events: seq<Event>)
    requires Reachable(s) && s.loop == Restarting
    requires Follow(Step(s, LoopExecs(false)), events).Some?
    ensures |Follow(Step(s, LoopExecs(false)), events).value.children| == |s.children|
  {
    ReachableOk(s);
    StepKeeps(s, LoopExecs(false));
    StartsNone(Step(s, LoopExecs(false)), events);
  }

  /** A restart can come to be tried, and so to fail. */
  lemma RestartMayBeTried() returns (s: System)
    ensures Reachable(s) && s.loop == Restarting && !s.CtxDone()
  {
    MayBeReading();
    s := Then(READING, LoopReadsChannel);
    s := MayBeReaped(s);
    s := MayClose(s);
    s := MayBeCleared(s);
    s := MayLockToRestart(s);
  }

  lemma MayBeCleared(s: System) returns (t: System)
    requires Reachable(s) && s.holder == Free && s.loop == AwaitsExit(0, Some(0)) && s.Closed(0) && !s.CtxDone()
    ensures t == s.(m := Cleared(s.m, 0), loop := Checks) && Reachable(t)
  {
    t := Then(s, LoopSeesExit);
    assert t == s.(loop := Clears(0));
    t := Then(t, LoopClears);
  }

  lemma MayLockToRestart(s: System) returns (t: System)
    requires Reachable(s) && s.holder == Free && s.loop == Checks && s.m.ctx && !s.CtxDone()
    ensures t == s.(holder := Loop, loop := Restarting, restarts := s.restarts + 1) && Reachable(t)
  {
    t := Then(s, LoopChecks);
    assert t == s.(loop := BacksOff, restarts := s.restarts + 1);
    t := Then(t, LoopBackoffEnds);
    assert t == s.(loop := LocksToRestart, restarts := s.restarts + 1);
    t := Then(t, LoopLocks);
  }

  /** The event that brings the next child nearer. */
  function Onward(s: System): Event
    requires Inv(s) && MayStartAnother(s)
  {
    if s.start == NotCalled then StartLocks
    else if s.start == Launching then StartExecs(true)
    else match s.loop
      case AtTop => LoopReads
      case ReadsChannel(_) => LoopReadsChannel
      case AwaitsExit(c, _) => if s.children[c].waiter == HasClosed then LoopSeesExit else Nearer(s)
      case Clears(_) => LoopClears
      case Checks => LoopChecks
      case BacksOff => LoopBackoffEnds
      case LocksToRestart => LoopLocks
      case _ => LoopExecs(true)
  }

  function Distance(s: System): nat {
    if s.start == NotCalled then 2
    else if s.start == Launching then 1
    else match s.loop
      case AtTop => 13
      case ReadsChannel(_) => 12
      case AwaitsExit(_, _) => 6 + Steps(s)
      case Clears(_) => 5
      case Checks => 4
      case BacksOff => 3
      case LocksToRestart => 2
      case _ => 1
  }

  lemma OnwardIsEnabled(s: System)
    requires Inv(s) && MayStartAnother(s)
    ensures Enabled(s, Onward(s))
  {
    hide ChildrenOk;
    if s.loop.AwaitsExit? && s.children[s.loop.cmd].waiter != HasClosed {
      NearerIsNearer(s);
    }
  }

  lemma OnwardLeadsOn(s: System)
    requires Inv(s) && MayStartAnother(s) && !Execs(Onward(s)) && Enabled(s, Onward(s))
    ensures var t := Step(s, Onward(s));
            MayStartAnother(t) && Distance(t) < Distance(s) && |t.children| == |s.children|
  {
    hide ChildrenOk;
    if s.loop.AwaitsExit? && s.children[s.loop.cmd].waiter != HasClosed {
      NearerIsNearer(s);
    }
  }

  lemma {:induction false} StartsAnother(s: System) returns (events: seq<Event>)
    requires Inv(s) && MayStartAnother(s)
    ensures Follow(s, events).Some? && |Follow(s, events).value.children| > |s.children|
    decreases Distance(s)
  {
    hide MayStartAnother, Step, Enabled, Onward, Distance;
    var e := Onward(s);
    OnwardIsEnabled(s);
    StepKeeps(s, e);
    OnlyExecsLaunch(s, e);
    hide Inv;
    var t := Step(s, e);
    if Execs(e) {
      events := [e];
      assert Follow(t, events[1..]) == Some(t);
    } else {
      OnwardLeadsOn(s);
      var rest := StartsAnother(t);
      events := [e] + rest;
      assert events[1..] == rest;
    }
  }

  /** Supervision goes on exactly as long as Start is to come, or the manager has
      started, Stop has not cancelled, no restart has failed, and the parent's context
      has not ended, unless it ended under a restart already begun. */
  lemma AnotherChildExactlyWhen(s: System)
    requires Reachable(s)
    ensures MayStartAnother(s) <==>
            (exists events :: Follow(s, events).Some? && |Follow(s, events).value.children| > |s.children|)
  {
    hide MayStartAnother;
    ReachableOk(s);
    if MayStartAnother(s) {
      var events := StartsAnother(s);
    } else {
      forall events | Follow(s, events).Some?
        ensures |Follow(s, events).value.children| == |s.children|
      {
        StartsNone(s, events);
      }
    }
  }

  // ---------------------------------------------------- how a Stop comes back

  /** No event by which this Stop gives up. */
  predicate Patient(id: nat, events: seq<Event>) {
    forall i :: 0 <= i < |events| ==> events[i] != StopTimesOut(id) && events[i] != StopSignals(id, false)
  }

  predicate ExitRecorded(s: System) {
    s.m.cmd.Some? && s.m.cmd.value < |s.children| && s.children[s.m.cmd.value].waiter in {HasRecorded, HasClosed}
  }

  lemma UnrecordedStays(s: System, id: nat, e: Event)
    requires Inv(s) && id in s.stops && !ExitRecorded(s) && Enabled(s, e)
    requires e != StopTimesOut(id) && e != StopSignals(id, false)
    ensures id in Step(s, e).stops && !ExitRecorded(Step(s, e))
  {
  }

  lemma {:induction false} UnrecordedIsNeverSeen(s: System, id: nat, events: seq<Event>)
    requires Inv(s) && id in s.stops && !ExitRecorded(s)
    requires Patient(id, events) && Follow(s, events).Some?
    ensures !ExitRecorded(Follow(s, events).value)
    decreases |events|
  {
    hide Inv, ExitRecorded, Step, Enabled;
    if events == [] {
    } else {
      StepKeeps(s, events[0]);
      UnrecordedStays(s, id, events[0]);
      UnrecordedIsNeverSeen(Step(s, events[0]), id, events[1..]);
    }
  }

  /** A Stop that holds the mutex can see its child exit exactly when the waiter had
      recorded the exit before Stop took the mutex. Otherwise the waiter waits for
      Stop and Stop for the waiter, until Stop's context ends. */
  lemma StopSeesExitExactlyWhen(s: System, id: nat)
    requires Reachable(s) && id in s.stops
    ensures ExitRecorded(s) <==>
            (exists events ::
               && Patient(id, events) && Follow(s, events).Some?
               && Enabled(Follow(s, events).value, StopSeesExit(id, true)))
  {
    ReachableOk(s);
    if ExitRecorded(s) {
      var events := SeeExit(s, id);
    } else {
      forall events | Patient(id, events) && Follow(s, events).Some?
        ensures !Enabled(Follow(s, events).value, StopSeesExit(id, true))
      {
        UnrecordedIsNeverSeen(s, id, events);
        RunsKeepInvariant(s, events);
      }
    }
  }

  predicate InSight(s: System, id: nat) {
    id in s.stops && s.stops[id] == AwaitingExit && s.m.cmd.Some? && s.Closed(s.m.cmd.value)
  }

  /** The Stop sends its signal, or the waiter closes the channel. */
  function TowardsExit(s: System, id: nat): Event
    requires id in s.stops && s.m.cmd.Some?
  {
    if s.stops[id] == Signalling then StopSignals(id, true) else WaiterCloses(s.m.cmd.value)
  }

  function Remaining(s: System, id: nat): nat {
    (if id in s.stops && s.stops[id] == Signalling then 1 else 0)
    + (if s.m.cmd.Some? && s.Closed(s.m.cmd.value) then 0 else 1)
  }

  lemma ExitComesNearer(s: System, id: nat)
    requires Inv(s) && id in s.stops && ExitRecorded(s) && !InSight(s, id)
    ensures Enabled(s, TowardsExit(s, id))
    ensures var t := Step(s, TowardsExit(s, id));
            id in t.stops && ExitRecorded(t) && Remaining(t, id) < Remaining(s, id)
  {
    hide ChildrenOk, LoopOk, CancelOk;
  }

  lemma InSightIsSeen(s: System, id: nat)
    requires Inv(s) && InSight(s, id)
    ensures Enabled(s, StopSeesExit(id, true))
  {
    hide ChildrenOk, LoopOk, CancelOk, LockOk;
  }

  lemma {:induction false} SeeExit(s: System, id: nat) returns (events: seq<Event>)
    requires Inv(s) && id in s.stops && ExitRecorded(s)
    ensures Patient(id, events) && Follow(s, events).Some?
    ensures Enabled(Follow(s, events).value, StopSeesExit(id, true))
    decreases Remaining(s, id)
  {
    assert s.m.cmd.Some?;
    hide Inv, Step, Enabled, ExitRecorded, Remaining, InSight;
    if InSight(s, id) {
      InSightIsSeen(s, id);
      events := [];
    } else {
      var e := TowardsExit(s, id);
      ExitComesNearer(s, id);
      StepKeeps(s, e);
      hide TowardsExit;
      var rest := SeeExit(Step(s, e), id);
      events := [e] + rest;
      assert events[1..] == rest;
    }
  }

  lemma {:induction false} FollowThen(s: System, events: seq<Event>, e: Event)
    requires Follow(s, events).Some? && Enabled(Follow(s, events).value, e)
    ensures Follow(s, events + [e]) == Some(Step(Follow(s, events).value, e))
    decreases |events|
  {
    hide Step, Enabled;
    if events == [] {
      assert [e][1..] == [];
    } else {
      assert (events + [e])[1..] == events[1..] + [e];
      FollowThen(Step(s, events[0]), events[1..], e);
    }
  }

  // ------------------------------------------------- how the watch loop hangs

  lemma {:induction false} NilChannelBlocks(s: System, events: seq<Event>)
    requires s.loop.AwaitsExit? && s.loop.done.None? && s.start == StartedOk && Follow(s, events).Some?
    ensures Follow(s, events).value.loop == s.loop
    decreases |events|
  {
    if events != [] {
      var t := Step(s, events[0]);
      assert t.loop == s.loop && t.start == StartedOk;
      NilChannelBlocks(t, events[1..]);
    }
  }

  function Steps(t: System): nat {
    if t.loop.AwaitsExit? && t.loop.cmd < |t.children| then
      var child := t.children[t.loop.cmd];
      (if t.holder == Free then 0 else 1)
      + (match child.waiter
         case InWait => if child.exited then 3 else 4
         case HasReaped => 2
         case HasRecorded => 1
         case HasClosed => 0)
    else 0
  }

  /** What brings the exit nearer: the Stop in the way gives up, or the child's
      waiter moves on. */
  function Nearer(t: System): Event
    requires Inv(t) && t.loop.AwaitsExit?
  {
    var c := t.loop.cmd;
    if t.holder.Stopper? then
      if t.stops[t.holder.id] == Signalling then StopSignals(t.holder.id, false) else StopTimesOut(t.holder.id)
    else match t.children[c].waiter
      case InWait => if t.children[c].exited then WaitReturns(c) else ChildExits(c)
      case HasReaped => WaiterRecords(c)
      case _ => WaiterCloses(c)
  }

  lemma NearerIsNearer(t: System)
    requires Inv(t) && t.loop.AwaitsExit? && t.children[t.loop.cmd].waiter != HasClosed
    ensures Enabled(t, Nearer(t))
    ensures Step(t, Nearer(t)).loop == t.loop && Steps(Step(t, Nearer(t))) < Steps(t)
  {
    hide ChildrenOk, FieldsOk, CancelOk;
  }

  /** A loop that waits on a real channel can always be led on. */
  lemma {:induction false} CanSeeExit(t: System) returns (events: seq<Event>)
    requires Inv(t) && t.loop.AwaitsExit? && t.loop.done.Some?
    ensures Follow(t, events).Some? && Follow(t, events).value.loop.Clears?
    decreases Steps(t)
  {
    if t.children[t.loop.cmd].waiter == HasClosed {
      events := [LoopSeesExit];
      assert Follow(Step(t, LoopSeesExit), events[1..]).Some?;
    } else {
      var e := Nearer(t);
      NearerIsNearer(t);
      StepKeeps(t, e);
      hide Step, Enabled, Inv, Nearer;
      var rest := CanSeeExit(Step(t, e));
      events := [e] + rest;
      assert events[1..] == rest;
    }
  }

  /** The loop reads the channel outside its critical section. It then waits forever
      exactly when a Stop has finished in between. */
  lemma LoopHangsExactlyWhen(s: System)
    requires Reachable(s) && s.loop.ReadsChannel?
    ensures (!s.m.ctx <==>
               forall events :: Follow(Step(s, LoopReadsChannel), events).Some? ==>
                 Follow(Step(s, LoopReadsChannel), events).value.loop == Step(s, LoopReadsChannel).loop)
  {
    ReachableOk(s);
    var t := Step(s, LoopReadsChannel);
    if !s.m.ctx {
      forall events | Follow(t, events).Some? ensures Follow(t, events).value.loop == t.loop {
        NilChannelBlocks(t, events);
      }
    } else {
      StepKeeps(s, LoopReadsChannel);
      var events := CanSeeExit(t);
    }
  }

  lemma Then(s: System, e: Event) returns (t: System)
    requires Reachable(s) && Enabled(s, e)
    ensures t == Step(s, e) && Reachable(t)
  {
    hide Step, Enabled;
    var events :| Follow(INITIAL, events) == Some(s);
    FollowThen(INITIAL, events, e);
    t := Step(s, e);
  }

  const READING :=
    System(Launched(Opened(UNUSED), 0), Free, false, false, StartedOk, map[], ReadsChannel(0), [FRESH], 0)

  lemma MayBeReading()
    ensures Reachable(READING)
  {
    assert Follow(INITIAL, []) == Some(INITIAL);
    var s := Then(INITIAL, StartLocks);
    s := Then(s, StartExecs(true));
    assert s.children == [FRESH];
    s := Then(s, LoopReads);
  }

  lemma MayBeReaped(s: System) returns (t: System)
    requires Reachable(s) && s.children == [FRESH]
    ensures t == s.(children := [Child(true, HasReaped, 1, 0)]) && Reachable(t)
  {
    t := Then(s, ChildExits(0));
    assert t == s.(children := [Child(true, InWait, 0, 0)]);
    t := Then(t, WaitReturns(0));
  }

  lemma MayClose(s: System) returns (t: System)
    requires Reachable(s) && s.holder == Free && s.children == [Child(true, HasReaped, 1, 0)]
    ensures t == s.(m := Recorded(s.m, 0), children := [Child(true, HasClosed, 1, 1)]) && Reachable(t)
  {
    t := Then(s, WaiterRecords(0));
    assert t == s.(m := Recorded(s.m, 0), children := [Child(true, HasRecorded, 1, 0)]);
    t := Then(t, WaiterCloses(0));
  }

  /** And that does happen: the child exits, and a Stop takes the mutex between the
      loop's two reads. */
  lemma LoopMayHang()
    ensures exists s :: Reachable(s) && s.loop.ReadsChannel? && !s.m.ctx
  {
    MayBeReading();
    var s := MayBeReaped(READING);
    s := MayClose(s);
    s := MayStop(s);
  }

  lemma MayStop(s: System) returns (t: System)
    requires Reachable(s) && s.holder == Free && s.stops == map[] && s.m.cancel
    requires s.m.cmd == s.m.waitDone == Some(0) && s.Closed(0)
    ensures t.loop == s.loop && !t.m.ctx && Reachable(t)
  {
    t := MayLock(s);
    t := Then(t, StopSignals(0, true));
    t := Then(t, StopSeesExit(0, true));
  }

  lemma MayLock(s: System) returns (t: System)
    requires Reachable(s) && s.holder == Free && s.stops == map[] && s.m.cancel && s.m.cmd.Some?
    ensures Reachable(t)
    ensures t == s.(m := Uncancellable(s.m), cancelled := true, holder := Stopper(0), stops := map[0 := Signalling])
  {
    t := Then(s, StopLocks(0));
  }

  /** And a Stop does take the mutex before its child's exit is recorded: any Stop of
      a child that still runs. */
  lemma StopMayMissTheExit() returns (s: System)
    ensures Reachable(s) && 0 in s.stops && !ExitRecorded(s) && s.children == [FRESH]
  {
    MayBeReading();
    s := MayLock(READING);
  }
}
