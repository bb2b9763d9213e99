/** `AsyncQueue` (include/corouv/async_queue.h): a deque between two semaphores.  A
    state holds both semaphore machines; every interleaving of their steps with the
    critical sections on the deque is allowed, with any number of producers and
    consumers and with cancellations at any point. */
module AsyncQueue {
  import opened Text
  import Sem = Semaphore

  type TaskId = Sem.TaskId
  type Thread = Sem.Thread

  /** Tasks of `items` are pops, tasks of `slots` are pushes (`slots` idles when the queue
      is unbounded).  `pushers` and `poppers` have passed their critical section on the
      deque; `oweItems` and `oweSlots` count the releases they still have to begin. */
  datatype State<T> = State(capacity: Option<nat>, items: Sem.State, slots: Sem.State, queue: seq<T>,
                            pushed: seq<T>, popped: seq<T>, pushers: set<TaskId>, poppers: set<TaskId>,
                            oweItems: nat, oweSlots: nat, underflow: bool)

  datatype Step<T> =
    | OnItems(step: Sem.Step)
    | OnSlots(step: Sem.Step)
    | PushCommit(t: TaskId, value: T)
    | PopCommit(t: TaskId)
    | ItemsRelease(r: Thread)
    | SlotsRelease(r: Thread)

  function Init<T>(capacity: Option<nat>): State<T> {
    State(capacity, Sem.Init(0), Sem.Init(if capacity.Some? then capacity.value else 0),
          [], [], [], {}, {}, 0, 0, false)
  }

  /** The acquire of `t` has returned to its caller, which goes on to the deque. */
  predicate Acquired(s: Sem.State, t: TaskId) {
    Sem.Is(s, t, Sem.Finished(false))
  }

  predicate Enabled<T>(s: State<T>, step: Step<T>) {
    match step
    case OnItems(m) => !m.ReleaseBegin? && Sem.Enabled(s.items, m)
    case OnSlots(m) => !m.ReleaseBegin? && Sem.Enabled(s.slots, m)
    case PushCommit(t, _) => t !in s.pushers && (s.capacity.Some? ==> Acquired(s.slots, t))
    case PopCommit(t) => t !in s.poppers && Acquired(s.items, t)
    case ItemsRelease(r) => s.oweItems > 0 && Sem.Enabled(s.items, Sem.ReleaseBegin(r, 1))
    case SlotsRelease(r) => s.oweSlots > 0 && Sem.Enabled(s.slots, Sem.ReleaseBegin(r, 1))
  }

  function Apply<T>(s: State<T>, step: Step<T>): State<T>
    requires Enabled(s, step)
  {
    match step
    case OnItems(m) => s.(items := Sem.Apply(s.items, m))
    case OnSlots(m) => s.(slots := Sem.Apply(s.slots, m))
    case PushCommit(t, value) =>
      s.(queue := s.queue + [value], pushed := s.pushed + [value], pushers := s.pushers + {t},
         oweItems := s.oweItems + 1)
    case PopCommit(t) =>
      if s.queue == [] then
        s.(underflow := true, poppers := s.poppers + {t}, oweItems := s.oweItems + 1)
      else
        s.(queue := s.queue[1..], popped := s.popped + [s.queue[0]], poppers := s.poppers + {t},
           oweSlots := s.oweSlots + (if s.capacity.Some? then 1 else 0))
    case ItemsRelease(r) =>
      s.(items := Sem.Apply(s.items, Sem.ReleaseBegin(r, 1)), oweItems := s.oweItems - 1)
    case SlotsRelease(r) =>
      s.(slots := Sem.Apply(s.slots, Sem.ReleaseBegin(r, 1)), oweSlots := s.oweSlots - 1)
  }

  ghost predicate Runs<T>(from: State<T>, steps: seq<Step<T>>, to: State<T>)
    decreases |steps|
  {
    if steps == [] then from == to
    else Enabled(from, steps[0]) && Runs(Apply(from, steps[0]), steps[1..], to)
  }

  ghost predicate Reachable<T(!new)>(s: State<T>) {
    exists capacity, steps :: Runs(Init<T>(capacity), steps, s)
  }

  // ---------------------------------------------------------------- invariant

  /** The two semaphores account for what went through the deque: each pop was paid for
      by an item permit, each item permit by a push, and each push by a slot. */
  ghost predicate Accounts<T>(s: State<T>) {
    && s.items.initial == 0 && s.items.released + s.oweItems == |s.pushed|
    && s.poppers <= Sem.Returned(s.items.tasks) && |s.poppers| == |s.popped|
    && (s.capacity.Some? ==>
          && s.slots.initial == s.capacity.value && s.slots.released + s.oweSlots == |s.popped|
          && s.pushers <= Sem.Returned(s.slots.tasks) && |s.pushers| == |s.pushed|)
  }

  ghost predicate Inv<T>(s: State<T>) {
    && Sem.Inv(s.items) && Sem.Inv(s.slots)
    && Accounts(s) && s.pushed == s.popped + s.queue && !s.underflow
  }

  /** No semaphore step takes a permit back from an acquire that has one. */
  lemma HoldersGrow(s: Sem.State, step: Sem.Step)
    requires Sem.Enabled(s, step)
    ensures Sem.Holders(s.tasks) <= Sem.Holders(Sem.Apply(s, step).tasks)
    ensures Sem.Apply(s, step).initial == s.initial
    ensures Sem.Apply(s, step).released == s.released + if step.ReleaseBegin? then step.count else 0
  {
    hide Sem.Live, Sem.Moved, Sem.MayMove;
    if Sem.Moves(step) {
      Sem.MovedPermit(s.tasks[step.t], step);
    }
    var tasks' := Sem.Apply(s, step).tasks;
    assert forall t :: t in s.tasks && s.tasks[t].permit ==> t in tasks' && tasks'[t].permit;
  }

  lemma AcquiredHolds(s: Sem.State, t: TaskId)
    requires Sem.Inv(s) && Acquired(s, t)
    ensures t in Sem.Holders(s.tasks)
  {
    Sem.TaskIsOk(s, t);
  }

  /** A pop that got its item permit finds the deque non-empty. */
  lemma NoUnderflow<T>(s: State<T>, t: TaskId)
    requires Inv(s) && Enabled(s, PopCommit(t))
    ensures s.queue != []
  {
    AcquiredHolds(s.items, t);
    Sem.ReturnedHold(s.items);
    Sem.SmallerSet(s.poppers + {t}, Sem.Holders(s.items.tasks));
    assert |s.poppers + {t}| == |s.poppers| + 1;
    assert |s.pushed| == |s.popped| + |s.queue|;
    ItemsBalance(s);
  }

  lemma ItemsBalance<T>(s: State<T>)
    requires Inv(s)
    ensures |Sem.Holders(s.items.tasks)| + s.items.permits + s.oweItems == |s.pushed|
  {
  }

  lemma SemaphoreStepKeeps<T>(s: State<T>, step: Step<T>)
    requires Inv(s) && Enabled(s, step) && !step.PushCommit? && !step.PopCommit?
    ensures Inv(Apply(s, step))
  {
    hide Sem.Inv, Sem.Apply, Sem.Enabled, Sem.Holders, Sem.Returned;
    match step {
      case OnItems(m) =>
        Sem.StepKeeps(s.items, m);
        HoldersGrow(s.items, m);
        Sem.ReturnedGrow(s.items, m);
      case OnSlots(m) =>
        Sem.StepKeeps(s.slots, m);
        HoldersGrow(s.slots, m);
        Sem.ReturnedGrow(s.slots, m);
      case ItemsRelease(r) =>
        Sem.StepKeeps(s.items, Sem.ReleaseBegin(r, 1));
        HoldersGrow(s.items, Sem.ReleaseBegin(r, 1));
        Sem.ReturnedGrow(s.items, Sem.ReleaseBegin(r, 1));
      case SlotsRelease(r) =>
        Sem.StepKeeps(s.slots, Sem.ReleaseBegin(r, 1));
        HoldersGrow(s.slots, Sem.ReleaseBegin(r, 1));
        Sem.ReturnedGrow(s.slots, Sem.ReleaseBegin(r, 1));
    }
  }

  lemma DequeStepKeeps<T>(s: State<T>, step: Step<T>)
    requires Inv(s) && Enabled(s, step) && (step.PushCommit? || step.PopCommit?)
    ensures Inv(Apply(s, step))
  {
    hide Sem.Inv, Sem.Holders;
    match step {
      case PushCommit(t, value) =>
        if s.capacity.Some? {
          AcquiredHolds(s.slots, t);
        }
        Assoc(s.popped, s.queue, [value]);
      case PopCommit(t) =>
        NoUnderflow(s, t);
        AcquiredHolds(s.items, t);
        assert s.queue == [s.queue[0]] + s.queue[1..];
        Assoc(s.popped, [s.queue[0]], s.queue[1..]);
    }
  }

  lemma {:induction false} RunKeeps<T>(from: State<T>, steps: seq<Step<T>>, to: State<T>)
    requires Inv(from) && Runs(from, steps, to)
    ensures Inv(to)
    decreases |steps|
  {
    hide Inv, Apply;
    if steps != [] {
      if steps[0].PushCommit? || steps[0].PopCommit? {
        DequeStepKeeps(from, steps[0]);
      } else {
        SemaphoreStepKeeps(from, steps[0]);
      }
      RunKeeps(Apply(from, steps[0]), steps[1..], to);
    }
  }

  lemma ReachableInv<T(!new)>(s: State<T>)
    requires Reachable(s)
    ensures Inv(s)
  {
    var capacity, steps :| Runs(Init<T>(capacity), steps, s);
    Sem.InitInv(0);
    Sem.InitInv(if capacity.Some? then capacity.value else 0);
    RunKeeps(Init<T>(capacity), steps, s);
  }

  // ----------------------------------------------------------------- theorems

  /** What was popped is a prefix of what was pushed, in order, and the rest is queued. */
  lemma PopsAreAPrefix<T(!new)>(s: State<T>)
    requires Reachable(s)
    ensures s.popped <= s.pushed && s.pushed == s.popped + s.queue
  {
    ReachableInv(s);
  }

  /** A bounded queue never holds more than its capacity, whoever is cancelled and when. */
  lemma WithinCapacity<T(!new)>(s: State<T>)
    requires Reachable(s) && s.capacity.Some?
    ensures |s.queue| <= s.capacity.value
  {
    ReachableInv(s);
    Sem.ReturnedHold(s.slots);
    Sem.SmallerSet(s.pushers, Sem.Holders(s.slots.tasks));
    assert |s.pushed| == |s.popped| + |s.queue|;
  }

  /** The branch that reports an internal underflow is never taken. */
  lemma UnderflowUnreachable<T(!new)>(s: State<T>, t: TaskId)
    requires Reachable(s)
    ensures !s.underflow
    ensures Enabled(s, PopCommit(t)) ==> s.queue != []
  {
    ReachableInv(s);
    if Enabled(s, PopCommit(t)) {
      NoUnderflow(s, t);
    }
  }

  /** Acquires that threw with a permit taken. */
  function Leaks(tasks: map<TaskId, Sem.Task>): set<TaskId> {
    set t | t in tasks && Sem.Leaked(tasks, t)
  }

  /** Acquires that have a permit and are still to reach the deque with it. */
  function UnderWay(tasks: map<TaskId, Sem.Task>, passed: set<TaskId>): set<TaskId> {
    Sem.Holders(tasks) - passed - Leaks(tasks)
  }

  lemma HoldersSplit(s: Sem.State, passed: set<TaskId>)
    requires Sem.Inv(s) && passed <= Sem.Returned(s.tasks)
    ensures |Sem.Holders(s.tasks)| == |passed| + |UnderWay(s.tasks, passed)| + |Leaks(s.tasks)|
  {
    Sem.ReturnedHold(s);
    var holders, leaks := Sem.Holders(s.tasks), Leaks(s.tasks);
    assert passed !! leaks && leaks <= holders;
    assert holders == passed + UnderWay(s.tasks, passed) + leaks;
    assert |passed + UnderWay(s.tasks, passed)| == |passed| + |UnderWay(s.tasks, passed)|;
  }

  /** The exact balance of elements: each one queued has its free permit, a release still
      owed, a pop on its way, or was given up by a pop that leaked its permit. */
  lemma ElementsBalance<T(!new)>(s: State<T>)
    requires Reachable(s)
    ensures |s.queue| == s.items.permits + s.oweItems + |UnderWay(s.items.tasks, s.poppers)| + |Leaks(s.items.tasks)|
  {
    ReachableInv(s);
    ItemsBalance(s);
    HoldersSplit(s.items, s.poppers);
    assert |s.pushed| == |s.popped| + |s.queue|;
  }

  /** The exact balance of a bounded queue: leaked pushes shrink it for good. */
  lemma CapacityBalance<T(!new)>(s: State<T>)
    requires Reachable(s) && s.capacity.Some?
    ensures s.capacity.value == |s.queue| + s.slots.permits + s.oweSlots
                                + |UnderWay(s.slots.tasks, s.pushers)| + |Leaks(s.slots.tasks)|
  {
    ReachableInv(s);
    HoldersSplit(s.slots, s.pushers);
    assert |s.pushed| == |s.popped| + |s.queue|;
  }

  /** At rest, a consumer is left suspended beside exactly as many elements as pops have
      leaked: beside an empty queue if none has. */
  lemma SuspendedBesideLeaks<T(!new)>(s: State<T>, t: TaskId)
    requires Reachable(s) && s.oweItems == 0 && UnderWay(s.items.tasks, s.poppers) == {}
    requires Sem.Quiescent(s.items) && Sem.Is(s.items, t, Sem.Waiting)
    ensures |s.queue| == |Leaks(s.items.tasks)|
  {
    ElementsBalance(s);
    ReachableInv(s);
    Sem.NoLostWakeupInv(s.items, t);
  }
}
