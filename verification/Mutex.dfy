/** `AsyncMutex` (include/corouv/async_mutex.h).  Its waiters, cancellation and
    resumption are those of the semaphore; it differs in `_locked` and in `unlock`,
    which hands the lock over instead of counting.  The machine below takes the same
    steps and is shown to refine a semaphore of one permit, from which its laws follow. */
module Mutex {
  import opened Text
  import Sem = Semaphore

  type TaskId = Sem.TaskId
  type Thread = Sem.Thread

  /** `found` is `next` inside `unlock`: the unlocking thread has granted a waiter. */
  datatype State = State(locked: bool, found: bool, queue: seq<TaskId>, holder: Option<Thread>,
                         tasks: map<TaskId, Sem.Task>, wakeups: map<Thread, seq<TaskId>>,
                         unlocks: nat, tickets: nat, grants: seq<TaskId>)

  const INIT := State(false, false, [], None, map[], map[], 0, 0, [])

  function Pending(m: State, r: Thread): seq<TaskId> {
    Sem.PendingOf(m.wakeups, r)
  }

  predicate Is(m: State, t: TaskId, pc: Sem.Pc) {
    t in m.tasks && m.tasks[t].pc == pc
  }

  /** `ReleaseBegin(r, 1)` is `unlock` entering `_mu`; an unlocked mutex makes it throw. */
  predicate Enabled(m: State, step: Sem.Step) {
    match step
    case Enter(t) => t !in m.tasks
    case TryFast(t) => Is(m, t, Sem.Checked) && m.holder == None
    case Suspend(t) => Is(m, t, Sem.Armed) && m.holder == None
    case CancelRemove(t) => t in m.tasks && m.tasks[t].cancel == Sem.CancelRemoving && m.holder == None
    case ReleaseBegin(r, count) => m.holder == None && Pending(m, r) == [] && count == 1 && m.locked
    case ReleaseGrant(r) => m.holder == Some(r) && !m.found && m.queue != [] && m.queue[0] in m.tasks
    case ReleaseEnd(r) => m.holder == Some(r) && (m.found || m.queue == [])
    case ReleaseResume(r) => m.holder != Some(r) && Pending(m, r) != [] && Pending(m, r)[0] in m.tasks
    case _ => step.t in m.tasks && Sem.MayMove(m.tasks[step.t], step)
  }

  function Apply(m: State, step: Sem.Step): State
    requires Enabled(m, step)
  {
    match step
    case Enter(t) =>
      m.(tasks := m.tasks[t := Sem.FRESH])
    case TryFast(t) =>
      var m' := m.(queue := Sem.Live(m.queue, m.tasks, None));
      if m.locked then m'.(tasks := m.tasks[t := m.tasks[t].(pc := Sem.Missed)])
      else m'.(locked := true, tasks := m.tasks[t := m.tasks[t].(pc := Sem.Fast, permit := true)])
    case Suspend(t) =>
      var live := Sem.Live(m.queue, m.tasks, None);
      if !m.locked then
        m.(queue := live, locked := true,
           tasks := m.tasks[t := m.tasks[t].(pc := Sem.Ready, done := true, granted := true, permit := true)])
      else
        m.(queue := live + [t], tickets := m.tickets + 1,
           tasks := m.tasks[t := m.tasks[t].(pc := Sem.Waiting, queuedAt := Some(m.tickets))])
    case CancelRemove(t) =>
      m.(queue := Sem.Live(m.queue, m.tasks, Some(t)),
         tasks := m.tasks[t := m.tasks[t].(cancel := Sem.CancelResuming)])
    case ReleaseBegin(r, _) =>
      m.(unlocks := m.unlocks + 1, queue := Sem.Live(m.queue, m.tasks, None), holder := Some(r), found := false)
    case ReleaseGrant(r) =>
      var c := m.queue[0];
      if m.tasks[c].done then m.(queue := m.queue[1..])
      else m.(queue := m.queue[1..], found := true, grants := m.grants + [c],
              tasks := m.tasks[c := m.tasks[c].(done := true, granted := true, permit := true, waker := Some(r))],
              wakeups := m.wakeups[r := Pending(m, r) + [c]])
    case ReleaseEnd(r) =>
      m.(holder := None, locked := m.found, found := false)
    case ReleaseResume(r) =>
      var w := Pending(m, r)[0];
      m.(wakeups := m.wakeups[r := Pending(m, r)[1..]],
         tasks := m.tasks[w := m.tasks[w].(pc := Sem.Ready, resumes := m.tasks[w].resumes + 1)])
    case _ =>
      m.(tasks := m.tasks[step.t := Sem.Moved(m.tasks[step.t], step)])
  }

  ghost predicate Runs(from: State, steps: seq<Sem.Step>, to: State)
    decreases |steps|
  {
    if steps == [] then from == to
    else Enabled(from, steps[0]) && Runs(Apply(from, steps[0]), steps[1..], to)
  }

  ghost predicate Reachable(m: State) {
    exists steps :: Runs(INIT, steps, m)
  }

  // --------------------------------------------------------------- refinement

  /** The permit is free when the mutex is, and while an unlock is looking for a taker. */
  function Permits(m: State): nat {
    if m.holder == None then (if m.locked then 0 else 1) else (if m.found then 0 else 1)
  }

  function Abs(m: State): Sem.State {
    Sem.State(1, Permits(m), m.queue, m.holder, m.tasks, m.wakeups, m.unlocks, m.tickets, m.grants)
  }

  /** An unlock in progress keeps the mutex locked. */
  predicate Ok(m: State) {
    (m.holder.Some? ==> m.locked) && (m.found ==> m.holder.Some?)
  }

  /** Each step of the mutex is the same step of the semaphore. */
  lemma StepRefines(m: State, step: Sem.Step)
    requires Ok(m) && Enabled(m, step)
    ensures Sem.Enabled(Abs(m), step) && Abs(Apply(m, step)) == Sem.Apply(Abs(m), step) && Ok(Apply(m, step))
  {
  }

  lemma {:induction false} RunRefines(from: State, steps: seq<Sem.Step>, to: State)
    requires Ok(from) && Runs(from, steps, to)
    ensures Sem.Runs(Abs(from), steps, Abs(to)) && Ok(to)
    decreases |steps|
  {
    hide Abs, Apply, Ok;
    if steps != [] {
      StepRefines(from, steps[0]);
      RunRefines(Apply(from, steps[0]), steps[1..], to);
    }
  }

  /** Every run of the mutex is a run of a semaphore with one permit. */
  lemma Refines(m: State)
    requires Reachable(m)
    ensures Sem.Reachable(Abs(m)) && Ok(m)
  {
    var steps :| Runs(INIT, steps, m);
    assert Abs(INIT) == Sem.Init(1);
    RunRefines(INIT, steps, m);
  }

  // ----------------------------------------------------------------- theorems

  /** Whenever `_mu` is free, ownerships granted minus unlocks is one when the mutex is
      locked and nought when it is not: never two owners, never a lost lock. */
  lemma OneOwner(m: State)
    requires Reachable(m) && m.holder == None
    ensures |Sem.Holders(m.tasks)| - m.unlocks == if m.locked then 1 else 0
  {
    Refines(m);
    Sem.Conservation(Abs(m));
  }

  /** Whenever `_mu` is free, an unlocked mutex has nobody queued. */
  lemma UnlockedMeansNoWaiters(m: State)
    requires Reachable(m) && m.holder == None && !m.locked
    ensures m.queue == []
  {
    Refines(m);
    Sem.NoPermitBesideWaiters(Abs(m));
  }

  /** The lock is handed over in enqueue order, skipping only cancelled waiters. */
  lemma HandsOverInOrder(m: State, early: TaskId, late: TaskId)
    requires Reachable(m) && early in m.tasks && m.tasks[early].queuedAt.Some?
    requires late in m.grants && Sem.TicketOf(m.tasks, early) < Sem.TicketOf(m.tasks, late)
    ensures (early in m.grants && !m.tasks[early].cancelWon) || (m.tasks[early].cancelWon && early !in m.grants)
    ensures Sem.Ascending(m.grants, m.tasks)
  {
    Refines(m);
    Sem.GrantsFollowTheQueue(Abs(m), early, late);
  }

  /** While somebody is queued, a newcomer gets the lock neither on the fast path nor on
      suspending, and it queues behind everybody. */
  lemma NoOvertaking(m: State, t: TaskId, t': TaskId)
    requires Reachable(m) && m.holder == None && m.queue != []
    ensures m.locked
    ensures Enabled(m, Sem.TryFast(t)) ==> Is(Apply(m, Sem.TryFast(t)), t, Sem.Missed)
    ensures Enabled(m, Sem.Suspend(t')) ==>
              var m' := Apply(m, Sem.Suspend(t'));
              m'.queue == Sem.Live(m.queue, m.tasks, None) + [t'] && !m'.tasks[t'].granted
  {
    if !m.locked {
      UnlockedMeansNoWaiters(m);
    }
    Refines(m);
    Sem.ReachableInv(Abs(m));
    if t' in m.tasks {
      Sem.TaskIsOk(Abs(m), t');
    }
  }

  /** A waiter is never both granted and cancelled, and is resumed at most once. */
  lemma OneOutcome(m: State, t: TaskId)
    requires Reachable(m) && t in m.tasks
    ensures !(m.tasks[t].granted && m.tasks[t].cancelWon) && m.tasks[t].resumes <= 1
  {
    Refines(m);
    Sem.OneOutcome(Abs(m), t);
  }

  // ------------------------------------------------------------------ a lost lock

  /** A lock attempt throws with the lock taken exactly in the window of the semaphore. */
  lemma LeakExactly(steps: seq<Sem.Step>, m: State, t: TaskId)
    requires Runs(INIT, steps, m)
    ensures Sem.Leaked(m.tasks, t) <==> Sem.CancelledInWindow(steps, t)
  {
    assert Abs(INIT) == Sem.Init(1);
    RunRefines(INIT, steps, m);
    Sem.LeakExactly(1, steps, Abs(m), t);
  }

  /** Every unlock is by somebody who was given the lock. */
  ghost predicate RunsProperly(from: State, steps: seq<Sem.Step>, to: State)
    decreases |steps|
  {
    if steps == [] then from == to
    else
      && Enabled(from, steps[0]) && (steps[0].ReleaseBegin? ==> from.unlocks < |Sem.Returned(from.tasks)|)
      && RunsProperly(Apply(from, steps[0]), steps[1..], to)
  }

  /** Somebody threw with the lock taken, and nobody unlocked what was not theirs. */
  ghost predicate Lost(m: State, t: TaskId) {
    && Ok(m) && Sem.Inv(Abs(m)) && m.holder == None
    && m.unlocks <= |Sem.Returned(m.tasks)| && Sem.Leaked(m.tasks, t)
  }

  lemma GivenHold(m: State, t: TaskId)
    requires Sem.Inv(Abs(m)) && Sem.Leaked(m.tasks, t)
    ensures |Sem.Returned(m.tasks)| + 1 <= |Sem.Holders(m.tasks)|
  {
    Sem.ReturnedHold(Abs(m));
    hide Sem.Inv;
    assert t !in Sem.Returned(m.tasks) && t in Sem.Holders(m.tasks);
    Sem.SmallerSet(Sem.Returned(m.tasks) + {t}, Sem.Holders(m.tasks));
  }

  /** A lost lock is locked, and nobody is left who may unlock it. */
  lemma LostIsLocked(m: State, t: TaskId)
    requires Lost(m, t)
    ensures m.locked && m.unlocks == |Sem.Returned(m.tasks)| && |Sem.Holders(m.tasks)| == |Sem.Returned(m.tasks)| + 1
  {
    GivenHold(m, t);
  }

  lemma SameHoldersWhenLocked(m: State, step: Sem.Step)
    requires Enabled(m, step) && m.locked && m.holder == None && !step.ReleaseBegin?
    ensures Sem.Holders(Apply(m, step).tasks) == Sem.Holders(m.tasks)
    ensures Apply(m, step).unlocks == m.unlocks && Apply(m, step).holder == None
  {
    hide Sem.Live, Sem.Moved, Sem.MayMove;
    if Sem.Moves(step) {
      Sem.MovedPermit(m.tasks[step.t], step);
    }
  }

  lemma FinishedStay(m: State, step: Sem.Step, t: TaskId)
    requires Ok(m) && Sem.Inv(Abs(m)) && Enabled(m, step) && Sem.Leaked(m.tasks, t)
    ensures Sem.Leaked(Apply(m, step).tasks, t)
    ensures Sem.Returned(m.tasks) <= Sem.Returned(Apply(m, step).tasks)
  {
    StepRefines(m, step);
    hide Sem.Inv, Sem.Apply, Sem.Enabled, Apply, Enabled;
    Sem.StepTells(Abs(m), step, t);
    Sem.ReturnedGrow(Abs(m), step);
  }

  lemma {:induction false} SameWhenAsLarge(a: set<TaskId>, b: set<TaskId>)
    requires a <= b && |b| <= |a|
    ensures a == b
  {
    if a != {} {
      var x :| x in a;
      SameWhenAsLarge(a - {x}, b - {x});
    }
  }

  lemma LostStaysLost(m: State, step: Sem.Step, t: TaskId)
    requires Lost(m, t) && Enabled(m, step) && (step.ReleaseBegin? ==> m.unlocks < |Sem.Returned(m.tasks)|)
    ensures Lost(Apply(m, step), t) && Sem.Returned(Apply(m, step).tasks) == Sem.Returned(m.tasks)
  {
    LostIsLocked(m, t);
    StepRefines(m, step);
    Sem.StepKeeps(Abs(m), step);
    FinishedStay(m, step, t);
    SameHoldersWhenLocked(m, step);
    hide Sem.Inv, Sem.Apply, Sem.Enabled, Apply, Enabled;
    var m' := Apply(m, step);
    GivenHold(m', t);
    SameWhenAsLarge(Sem.Returned(m.tasks), Sem.Returned(m'.tasks));
  }

  lemma {:induction false} LostAlong(from: State, steps: seq<Sem.Step>, to: State, t: TaskId)
    requires Lost(from, t) && RunsProperly(from, steps, to)
    ensures Lost(to, t) && Sem.Returned(to.tasks) == Sem.Returned(from.tasks)
    decreases |steps|
  {
    hide Lost, Enabled, Apply;
    if steps != [] {
      LostStaysLost(from, steps[0], t);
      LostAlong(Apply(from, steps[0]), steps[1..], to, t);
    }
  }

  /** Once an attempt has thrown with the lock taken, nobody is ever given the lock again,
      as long as nobody unlocks what was not given to them. */
  lemma LostForEver(from: State, steps: seq<Sem.Step>, to: State, t: TaskId)
    requires Reachable(from) && from.holder == None && from.unlocks <= |Sem.Returned(from.tasks)|
    requires Sem.Leaked(from.tasks, t) && RunsProperly(from, steps, to)
    ensures to.locked && Sem.Returned(to.tasks) == Sem.Returned(from.tasks)
  {
    Refines(from);
    Sem.ReachableInv(Abs(from));
    LostAlong(from, steps, to, t);
    LostIsLocked(to, t);
  }
}
