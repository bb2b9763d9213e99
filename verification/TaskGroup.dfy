/** `TaskGroup` over `ManualResetEvent` (include/corouv/task_group.h,
    include/corouv/event.h).  Spawning, finishing and waiting happen on the loop thread;
    cancelling the group or a waiting coroutine may happen on any thread, at any point
    between the steps of the loop thread, including those of one `await_suspend`. */
module TaskGroup {
  import opened Text

  type TaskId = nat
  type WaitId = nat

  /** How a task failed; `isSignal` for a cancellation signal. */
  datatype Failure = Failure(what: nat, isSignal: bool)

  /** Where a `wait()` is.  An armed one has its cancellation handler installed and is about
      to register; a woken one is about to run `await_resume`. */
  datatype WaitPc = Checked | Armed | Suspended | Woken | Returned(normally: bool)

  /** `done` is the event operation's flag; `byCancel` says that its cancellation handler set
      it, and `scheduled` that this handler has scheduled the resumption.  `sawIdle` records
      that at some moment since the wait began no accepted task was unfinished. */
  datatype Wait = Wait(pc: WaitPc, slotCancelled: bool, done: bool, byCancel: bool, scheduled: bool, sawIdle: bool)

  /** Where the loop thread is: between turns, in one wait's `await_suspend`, or inside
      `State::finish`. */
  datatype LoopPc =
    | Free
    | InWait(w: WaitId)
    | Finishing(shouldCancel: bool, drain: bool)
    | Resuming(swapped: seq<WaitId>)          // in `drained.set()`, after the swap

  /** `failures` are the failures that counted since an error was last taken. */
  datatype State = State(pending: nat, firstError: Option<Failure>, cancelled: bool,
                         signaled: bool, waiters: seq<WaitId>, waits: map<WaitId, Wait>, loop: LoopPc,
                         unfinished: set<TaskId>, accepted: set<TaskId>, failures: seq<Failure>)

  datatype Step =
    | Spawn(t: TaskId)
    | Finish(t: TaskId, failure: Option<Failure>)
    | FinishCancel
    | FinishSet
    | FinishDone
    | ResumeNext
    | ResumeDone
    | Cancel
    | WaitBegin(w: WaitId, slotCancelled: bool)
    | WaitArm(w: WaitId)
    | WaitRegister(w: WaitId)
    | SlotCancel(w: WaitId)
    | CancelExchange(w: WaitId)
    | CancelRemove(w: WaitId)
    | CancelWake(w: WaitId)
    | WaitReturn(w: WaitId)

  const INIT := State(0, None, false, true, [], map[], Free, {}, {}, [])

  /** `compact_waiters_locked`, and `remove_waiter` for `gone`. */
  function Live(waiters: seq<WaitId>, waits: map<WaitId, Wait>, gone: Option<WaitId>): (r: seq<WaitId>)
    ensures forall w :: w in r <==> w in waiters && gone != Some(w) && !(w in waits && waits[w].done)
    ensures waiters == [] ==> r == []
  {
    if waiters == [] then []
    else
      var w := waiters[0];
      (if gone == Some(w) || (w in waits && waits[w].done) then [] else [w]) + Live(waiters[1..], waits, gone)
  }

  predicate Active(k: Wait) {
    !k.pc.Returned?
  }

  /** Every wait under way has now seen the group idle. */
  function SeeIdle(waits: map<WaitId, Wait>): map<WaitId, Wait> {
    map w | w in waits :: if Active(waits[w]) then waits[w].(sawIdle := true) else waits[w]
  }

  /** A failure that is not a signal arriving after cancellation. */
  predicate Counts(s: State, failure: Option<Failure>) {
    failure.Some? && !(s.cancelled && failure.value.isSignal)
  }

  predicate Enabled(s: State, step: Step) {
    match step
    case Spawn(t) => s.loop == Free && t !in s.accepted && !s.cancelled
    case Finish(t, _) => s.loop == Free && t in s.unfinished
    case FinishCancel => s.loop.Finishing? && s.loop.shouldCancel
    case FinishSet => s.loop == Finishing(false, true)
    case FinishDone => s.loop == Finishing(false, false)
    case ResumeNext => s.loop.Resuming? && s.loop.swapped != [] && s.loop.swapped[0] in s.waits
    case ResumeDone => s.loop == Resuming([])
    case Cancel => true
    case WaitBegin(w, _) => s.loop == Free && w !in s.waits
    case WaitArm(w) => s.loop == InWait(w) && w in s.waits && s.waits[w].pc == Checked
    case WaitRegister(w) => s.loop == InWait(w) && w in s.waits && s.waits[w].pc == Armed
    case SlotCancel(w) => w in s.waits
    case CancelExchange(w) =>
      w in s.waits && (s.waits[w].pc == Armed || s.waits[w].pc == Suspended) && s.waits[w].slotCancelled && !s.waits[w].done
    case CancelRemove(w) => w in s.waits && s.waits[w].byCancel && !s.waits[w].scheduled
    case CancelWake(w) => s.loop == Free && w in s.waits && s.waits[w].scheduled && s.waits[w].pc == Suspended
    case WaitReturn(w) => s.loop == Free && w in s.waits && s.waits[w].pc == Woken
  }

  function Apply(s: State, step: Step): State
    requires Enabled(s, step)
  {
    match step
    case Spawn(t) =>
      var s' := if s.pending == 0 then s.(signaled := false, waiters := Live(s.waiters, s.waits, None)) else s;
      s'.(pending := s.pending + 1, unfinished := s.unfinished + {t}, accepted := s.accepted + {t})
    case Finish(t, failure) =>
      var counts := Counts(s, failure);
      var left := if s.pending > 0 then s.pending - 1 else 0;
      s.(firstError := if counts && s.firstError == None then failure else s.firstError,
         failures := if counts then s.failures + [failure.value] else s.failures,
         pending := left, unfinished := s.unfinished - {t},
         waits := if left == 0 then SeeIdle(s.waits) else s.waits,
         loop := Finishing(counts && s.firstError == None, left == 0))
    case FinishCancel => s.(cancelled := true, loop := Finishing(false, s.loop.drain))
    case FinishSet => s.(signaled := true, waiters := [], loop := Resuming(Live(s.waiters, s.waits, None)))
    case FinishDone => s.(loop := Free)
    case ResumeNext =>
      var w := s.loop.swapped[0];
      var s' := s.(loop := Resuming(s.loop.swapped[1..]));
      if s.waits[w].done then s'
      else s'.(waiters := Live(s.waiters, s.waits, Some(w)),
               waits := s.waits[w := s.waits[w].(done := true, pc := Woken)])
    case ResumeDone => s.(loop := Free)
    case Cancel => s.(cancelled := true)
    case WaitBegin(w, slotCancelled) =>
      var ready := s.signaled || slotCancelled;
      s.(loop := if ready then Free else InWait(w),
         waits := s.waits[w := Wait(if ready then Woken else Checked, slotCancelled, false, false, false, s.pending == 0)])
    case WaitArm(w) =>
      if s.waits[w].slotCancelled then s.(loop := Free, waits := s.waits[w := s.waits[w].(pc := Woken)])
      else s.(waits := s.waits[w := s.waits[w].(pc := Armed)])
    case WaitRegister(w) =>
      var live := Live(s.waiters, s.waits, None);
      if s.signaled then s.(loop := Free, waiters := live, waits := s.waits[w := s.waits[w].(pc := Woken)])
      else s.(loop := Free, waiters := live + [w], waits := s.waits[w := s.waits[w].(pc := Suspended)])
    case SlotCancel(w) => s.(waits := s.waits[w := s.waits[w].(slotCancelled := true)])
    case CancelExchange(w) => s.(waits := s.waits[w := s.waits[w].(done := true, byCancel := true)])
    case CancelRemove(w) =>
      s.(waiters := Live(s.waiters, s.waits, Some(w)), waits := s.waits[w := s.waits[w].(scheduled := true)])
    case CancelWake(w) => s.(waits := s.waits[w := s.waits[w].(pc := Woken)])
    case WaitReturn(w) =>
      var normally := !s.waits[w].slotCancelled;
      var s' := s.(waits := s.waits[w := s.waits[w].(pc := Returned(normally))]);
      if normally then s'.(firstError := None, failures := []) else s'
  }

  ghost predicate Runs(from: State, steps: seq<Step>, to: State)
    decreases |steps|
  {
    if steps == [] then from == to
    else Enabled(from, steps[0]) && Runs(Apply(from, steps[0]), steps[1..], to)
  }

  // ---------------------------------------------------------------- invariant

  /** What one wait may assume of the group. */
  predicate WaitOk(idle: bool, k: Wait) {
    && (idle && Active(k) ==> k.sawIdle)
    && (k.byCancel ==> k.slotCancelled && k.done)
    && (k.pc == Checked ==> !k.done) && (k.scheduled ==> k.byCancel)
    && (k.pc == Armed || k.pc == Suspended ==> (k.done <==> k.byCancel))
    && (k.pc == Woken ==> k.sawIdle || k.slotCancelled)
    && (k.pc == Returned(true) ==> k.sawIdle)
  }

  function SwappedOut(s: State): seq<WaitId> {
    if s.loop.Resuming? then s.loop.swapped else []
  }

  /** Suspended, and nobody has claimed the right to resume it yet. */
  predicate Unclaimed(waits: map<WaitId, Wait>, w: WaitId) {
    w in waits && waits[w].pc == Suspended && !waits[w].done
  }

  ghost predicate WaitsFit(waits: map<WaitId, Wait>, waiters: seq<WaitId>, swapped: seq<WaitId>, idle: bool) {
    && (forall w :: w in waits ==> WaitOk(idle, waits[w]))
    && (forall w :: w in waiters ==> w in waits && (waits[w].pc == Suspended || waits[w].done))
    && (forall w :: w in swapped ==> w in waits && (!waits[w].done ==> waits[w].pc == Suspended))
    && (forall w :: Unclaimed(waits, w) ==> w in waiters || w in swapped)
  }

  ghost predicate WaitsOk(s: State) {
    WaitsFit(s.waits, s.waiters, SwappedOut(s), s.pending == 0)
  }

  ghost predicate GroupOk(s: State) {
    && s.pending == |s.unfinished| && s.unfinished <= s.accepted
    && (s.signaled ==> s.waiters == [])
    && (s.loop == Free ==> (s.signaled <==> s.pending == 0))
    && (s.loop.InWait? ==> !s.signaled && s.pending > 0)
    && (s.loop.Finishing? ==> (s.loop.drain <==> s.pending == 0) && !s.signaled)
    && (s.loop.Resuming? ==> s.signaled && s.pending == 0)
    && s.firstError == (if s.failures == [] then None else Some(s.failures[0]))
    && (s.firstError.Some? ==> s.cancelled || (s.loop.Finishing? && s.loop.shouldCancel))
  }

  ghost predicate Inv(s: State) {
    GroupOk(s) && WaitsOk(s)
  }

  lemma SpawnKeepsGroup(s: State, t: TaskId)
    requires GroupOk(s) && Enabled(s, Spawn(t))
    ensures GroupOk(Apply(s, Spawn(t)))
  {
    hide Live;
    assert |s.unfinished + {t}| == |s.unfinished| + 1;
  }

  lemma FinishKeepsGroup(s: State, t: TaskId, failure: Option<Failure>)
    requires GroupOk(s) && Enabled(s, Finish(t, failure))
    ensures GroupOk(Apply(s, Finish(t, failure)))
  {
    hide SeeIdle;
    assert |s.unfinished - {t}| == |s.unfinished| - 1;
  }

  lemma GroupKeeps(s: State, step: Step)
    requires GroupOk(s) && Enabled(s, step)
    ensures GroupOk(Apply(s, step))
  {
    hide SeeIdle, Live;
    match step {
      case Spawn(t) => SpawnKeepsGroup(s, t);
      case Finish(t, failure) => FinishKeepsGroup(s, t, failure);
      case _ =>
    }
  }

  lemma IdleMeansSignaled(s: State)
    requires GroupOk(s)
    ensures s.loop == Free ==> (s.signaled <==> s.pending == 0)
    ensures s.loop.InWait? ==> !s.signaled
    ensures s.loop.Resuming? ==> s.pending == 0 && s.waiters == []
    ensures s.loop == Finishing(false, true) ==> s.pending == 0
  {
  }

  /** Changing one wait, which keeps its place in the lists. */
  lemma OneWait(waits: map<WaitId, Wait>, waiters: seq<WaitId>, swapped: seq<WaitId>, idle: bool, w: WaitId, k: Wait)
    requires WaitsFit(waits, waiters, swapped, idle) && WaitOk(idle, k)
    requires w in waiters ==> k.pc == Suspended || k.done
    requires w in swapped && !k.done ==> k.pc == Suspended
    requires k.pc == Suspended && !k.done ==> w in waiters || w in swapped
    ensures WaitsFit(waits[w := k], waiters, swapped, idle)
  {
  }

  /** Compacting, or removing a wait that is done, drops no wait that still needs its place. */
  lemma FewerWaiters(waits: map<WaitId, Wait>, waiters: seq<WaitId>, swapped: seq<WaitId>, idle: bool, gone: Option<WaitId>)
    requires WaitsFit(waits, waiters, swapped, idle)
    requires gone.Some? ==> gone.value in waits && waits[gone.value].done
    ensures WaitsFit(waits, Live(waiters, waits, gone), swapped, idle)
  {
  }

  lemma Places(s: State, w: WaitId)
    requires WaitsOk(s) && w in s.waits
    ensures WaitOk(s.pending == 0, s.waits[w])
    ensures w in s.waiters ==> s.waits[w].pc == Suspended || s.waits[w].done
    ensures w in SwappedOut(s) && !s.waits[w].done ==> s.waits[w].pc == Suspended
    ensures s.waits[w].pc == Suspended && !s.waits[w].done ==> w in s.waiters || w in SwappedOut(s)
  {
  }

  lemma CancelStepKeeps(s: State, step: Step)
    requires Inv(s) && Enabled(s, step) && (step.SlotCancel? || step.CancelExchange? || step.CancelRemove? || step.CancelWake?)
    ensures WaitsOk(Apply(s, step))
  {
    hide GroupOk, WaitsFit;
    var w := step.w;
    Places(s, w);
    var s' := Apply(s, step);
    FewerWaiters(s.waits, s.waiters, SwappedOut(s), s.pending == 0, if step.CancelRemove? then Some(w) else None);
    OneWait(s.waits, s'.waiters, SwappedOut(s), s.pending == 0, w, s'.waits[w]);
  }

  lemma WaitBeginKeeps(s: State, w: WaitId, slotCancelled: bool)
    requires Inv(s) && Enabled(s, WaitBegin(w, slotCancelled))
    ensures WaitsOk(Apply(s, WaitBegin(w, slotCancelled)))
  {
    hide Live, GroupOk;
    IdleMeansSignaled(s);
  }

  lemma WaitArmKeeps(s: State, w: WaitId)
    requires Inv(s) && Enabled(s, WaitArm(w))
    ensures WaitsOk(Apply(s, WaitArm(w)))
  {
    hide GroupOk, WaitsFit;
    IdleMeansSignaled(s);
    Places(s, w);
    OneWait(s.waits, s.waiters, [], s.pending == 0, w, Apply(s, WaitArm(w)).waits[w]);
  }

  lemma WaitRegisterKeeps(s: State, w: WaitId)
    requires Inv(s) && Enabled(s, WaitRegister(w))
    ensures WaitsOk(Apply(s, WaitRegister(w)))
  {
    hide GroupOk, WaitsFit;
    IdleMeansSignaled(s);
    Places(s, w);
    var s' := Apply(s, WaitRegister(w));
    FewerWaiters(s.waits, s.waiters, [], s.pending == 0, None);
    AddWaiter(s.waits, Live(s.waiters, s.waits, None), s.pending == 0, w);
  }

  lemma AddWaiter(waits: map<WaitId, Wait>, waiters: seq<WaitId>, idle: bool, w: WaitId)
    requires WaitsFit(waits, waiters, [], idle) && w in waits && waits[w].pc == Armed
    ensures WaitsFit(waits[w := waits[w].(pc := Suspended)], waiters + [w], [], idle)
  {
    assert WaitOk(idle, waits[w]);
  }

  lemma WaitReturnKeeps(s: State, w: WaitId)
    requires Inv(s) && Enabled(s, WaitReturn(w))
    ensures WaitsOk(Apply(s, WaitReturn(w)))
  {
    hide GroupOk, WaitsFit;
    Places(s, w);
    var s' := Apply(s, WaitReturn(w));
    OneWait(s.waits, s.waiters, [], s.pending == 0, w, s'.waits[w]);
  }

  lemma FinishKeeps(s: State, t: TaskId, failure: Option<Failure>)
    requires Inv(s) && Enabled(s, Finish(t, failure))
    ensures WaitsOk(Apply(s, Finish(t, failure)))
  {
    hide Live, GroupOk;
  }

  lemma FinishSetKeeps(s: State)
    requires Inv(s) && Enabled(s, FinishSet)
    ensures WaitsOk(Apply(s, FinishSet))
  {
    hide Live, GroupOk;
    IdleMeansSignaled(s);
  }

  lemma SpawnKeeps(s: State, t: TaskId)
    requires Inv(s) && Enabled(s, Spawn(t))
    ensures WaitsOk(Apply(s, Spawn(t)))
  {
    hide Live, GroupOk;
  }

  lemma ResumeNextKeeps(s: State)
    requires Inv(s) && Enabled(s, ResumeNext)
    ensures WaitsOk(Apply(s, ResumeNext))
  {
    hide GroupOk, WaitsFit;
    IdleMeansSignaled(s);
    Places(s, s.loop.swapped[0]);
    NextResumed(s.waits, s.loop.swapped);
  }

  /** The next waiter swapped out by `set()` is woken, unless a cancellation claimed it. */
  lemma NextResumed(waits: map<WaitId, Wait>, swapped: seq<WaitId>)
    requires swapped != [] && swapped[0] in waits && WaitsFit(waits, [], swapped, true)
    ensures var w := swapped[0];
            if waits[w].done then WaitsFit(waits, [], swapped[1..], true)
            else WaitsFit(waits[w := waits[w].(done := true, pc := Woken)], [], swapped[1..], true)
  {
    var w := swapped[0];
    assert WaitOk(true, waits[w]);
    assert forall x :: x in swapped <==> x == w || x in swapped[1..];
  }

  /** The remaining steps touch neither the waits nor the waiters. */
  lemma PlainStepKeeps(s: State, step: Step)
    requires Inv(s) && Enabled(s, step)
    requires step.FinishCancel? || step.FinishDone? || step.ResumeDone? || step.Cancel?
    ensures WaitsOk(Apply(s, step))
  {
    hide Live, GroupOk;
    assert SwappedOut(Apply(s, step)) == SwappedOut(s);
  }

  lemma StepKeeps(s: State, step: Step)
    requires Inv(s) && Enabled(s, step)
    ensures Inv(Apply(s, step))
  {
    hide Apply, GroupOk, WaitsOk;
    GroupKeeps(s, step);
    match step {
      case WaitBegin(w, slotCancelled) => WaitBeginKeeps(s, w, slotCancelled);
      case WaitArm(w) => WaitArmKeeps(s, w);
      case WaitRegister(w) => WaitRegisterKeeps(s, w);
      case WaitReturn(w) => WaitReturnKeeps(s, w);
      case Finish(t, failure) => FinishKeeps(s, t, failure);
      case FinishSet => FinishSetKeeps(s);
      case Spawn(t) => SpawnKeeps(s, t);
      case ResumeNext => ResumeNextKeeps(s);
      case SlotCancel(_) => CancelStepKeeps(s, step);
      case CancelExchange(_) => CancelStepKeeps(s, step);
      case CancelRemove(_) => CancelStepKeeps(s, step);
      case CancelWake(_) => CancelStepKeeps(s, step);
      case _ => PlainStepKeeps(s, step);
    }
  }

  lemma {:induction false} RunKeeps(from: State, steps: seq<Step>, to: State)
    requires Inv(from) && Runs(from, steps, to)
    ensures Inv(to)
    decreases |steps|
  {
    hide Inv, Apply;
    if steps != [] {
      StepKeeps(from, steps[0]);
      RunKeeps(Apply(from, steps[0]), steps[1..], to);
    }
  }

  // ----------------------------------------------------------------- theorems

  /** Between the steps of `finish`, the event is set exactly when no task is pending, and
      `pending` is the number of accepted tasks that have not finished. */
  lemma DrainedIffIdle(steps: seq<Step>, s: State)
    requires Runs(INIT, steps, s)
    ensures s.pending == |s.unfinished|
    ensures s.loop == Free ==> (s.signaled <==> s.unfinished == {})
  {
    RunKeeps(INIT, steps, s);
  }

  /** A signalled event holds no waiter. */
  lemma SignaledHoldsNoWaiter(steps: seq<Step>, s: State)
    requires Runs(INIT, steps, s) && s.signaled
    ensures s.waiters == []
  {
    RunKeeps(INIT, steps, s);
  }

  /** `register_waiter` never finds the event set once `await_ready` found it unset, so a
      handler that has already scheduled the resumption of a wait that is not yet suspended
      resumes it exactly once. */
  lemma RegisterSuspends(steps: seq<Step>, s: State, w: WaitId)
    requires Runs(INIT, steps, s) && Enabled(s, WaitRegister(w))
    ensures Apply(s, WaitRegister(w)).waits[w].pc == Suspended
  {
    RunKeeps(INIT, steps, s);
  }

  /** A wait that completes normally spans a moment when no accepted task was unfinished,
      even if more tasks were spawned before it was resumed. */
  lemma WaitSpansIdle(steps: seq<Step>, s: State, w: WaitId)
    requires Runs(INIT, steps, s) && w in s.waits && s.waits[w].pc == Returned(true)
    ensures s.waits[w].sawIdle
  {
    RunKeeps(INIT, steps, s);
    assert WaitOk(s.pending == 0, s.waits[w]);
  }

  /** No lost wakeup: when the loop is free and the group idle, nobody is left suspended,
      except a cancelled wait whose own handler is about to wake it. */
  lemma NobodyStranded(steps: seq<Step>, s: State, w: WaitId)
    requires Runs(INIT, steps, s) && s.loop == Free && s.unfinished == {}
    requires w in s.waits && s.waits[w].pc == Suspended
    ensures s.waits[w].byCancel
  {
    RunKeeps(INIT, steps, s);
    assert WaitOk(s.pending == 0, s.waits[w]) && (Unclaimed(s.waits, w) ==> w in s.waiters || w in SwappedOut(s));
  }

  /** The error kept is the first failure that counted since an error was last taken, and
      once `finish` is through, the group is cancelled. */
  lemma FirstFailureKept(steps: seq<Step>, s: State)
    requires Runs(INIT, steps, s)
    ensures s.firstError == (if s.failures == [] then None else Some(s.failures[0]))
    ensures s.loop == Free && s.firstError.Some? ==> s.cancelled
  {
    RunKeeps(INIT, steps, s);
  }

  /** Once the group is cancelled it stays so, and accepts no further task. */
  lemma {:induction false} CancelledAcceptsNothing(from: State, steps: seq<Step>, to: State)
    requires from.cancelled && Runs(from, steps, to)
    ensures to.cancelled && to.accepted == from.accepted
    decreases |steps|
  {
    if steps != [] {
      CancelledAcceptsNothing(Apply(from, steps[0]), steps[1..], to);
    }
  }
}
