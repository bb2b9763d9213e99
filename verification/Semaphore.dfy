/** `AsyncSemaphore` (include/corouv/async_semaphore.h) as a machine of atomic steps.
    One step is a critical section of `_mu`, an exchange on a waiter's `done` flag, a
    resumption, or a move of the awaiting coroutine.  A `release` holds `_mu` over
    several steps, so that cancellations, which do not take `_mu` to win the exchange,
    may fall between its grants.  Acquires and cancellation callbacks run on one
    executor; releases come from any number of threads. */
module Semaphore {
  import opened Text

  type TaskId = nat
  type Thread = nat

  /** Where an acquiring coroutine is. */
  datatype Pc =
    | Entered                  // about to ask in `await_ready` whether the slot is cancelled
    | Checked                  // it was not; `try_acquire` comes next
    | Fast                     // `try_acquire` took a permit
    | Missed                   // `try_acquire` failed; `await_suspend` comes next
    | Armed                    // the cancellation handler is installed; `enqueue_waiter` comes next
    | Waiting                  // suspended
    | Ready                    // about to run `await_resume` with a settled waiter
    | Finished(threw: bool)

  /** Where `cancel_on_executor` is for this waiter. */
  datatype CancelPc = CancelIdle | CancelRemoving | CancelResuming | CancelDone

  /** One acquire.  `slotCancelled` is its caller's slot; `done`, `granted` and
      `cancelRequested` are the waiter's own flags; `cancelWon`, `permit`, `queuedAt`,
      `waker` and `resumes` record its history. */
  datatype Task = Task(pc: Pc, slotCancelled: bool, cancel: CancelPc, done: bool, granted: bool, cancelRequested: bool,
                       cancelWon: bool, permit: bool, queuedAt: Option<nat>, waker: Option<Thread>, resumes: nat)

  /** `holder` is the releasing thread inside `_mu`; `wakeups` what each releasing thread
      has granted and not yet resumed; `grants` the waiters granted from the queue. */
  datatype State = State(initial: nat, permits: nat, queue: seq<TaskId>, holder: Option<Thread>,
                         tasks: map<TaskId, Task>, wakeups: map<Thread, seq<TaskId>>,
                         released: nat, tickets: nat, grants: seq<TaskId>)

  datatype Step =
    | Enter(t: TaskId)
    | SlotCancel(t: TaskId)
    | Check(t: TaskId)
    | TryFast(t: TaskId)
    | FinishFast(t: TaskId)
    | Arm(t: TaskId)
    | Suspend(t: TaskId)
    | RequestCancel(t: TaskId)
    | CancelExchange(t: TaskId)
    | CancelRemove(t: TaskId)
    | CancelResume(t: TaskId)
    | ReleaseBegin(r: Thread, count: nat)
    | ReleaseGrant(r: Thread)
    | ReleaseEnd(r: Thread)
    | ReleaseResume(r: Thread)
    | Return(t: TaskId)

  const FRESH := Task(Entered, false, CancelIdle, false, false, false, false, false, None, None, 0)

  function Init(initial: nat): State {
    State(initial, initial, [], None, map[], map[], 0, 0, [])
  }

  /** `compact_waiters_locked`, and `remove_waiter` for `gone`. */
  function Live(queue: seq<TaskId>, tasks: map<TaskId, Task>, gone: Option<TaskId>): seq<TaskId> {
    if queue == [] then []
    else
      var q := queue[0];
      (if gone == Some(q) || (q in tasks && tasks[q].done) then [] else [q]) + Live(queue[1..], tasks, gone)
  }

  function Pending(s: State, r: Thread): seq<TaskId> {
    PendingOf(s.wakeups, r)
  }

  predicate Is(s: State, t: TaskId, pc: Pc) {
    t in s.tasks && s.tasks[t].pc == pc
  }

  /** The waiter exists and its cancellation handler has been installed. */
  predicate Installed(k: Task) {
    k.pc == Armed || k.pc == Waiting || k.pc == Ready || (k.pc.Finished? && k.done)
  }

  /** Steps of one coroutine, its slot or its cancellation that touch nothing shared. */
  predicate Moves(step: Step) {
    step.SlotCancel? || step.Check? || step.FinishFast? || step.Arm? || step.RequestCancel? || step.CancelExchange?
    || step.CancelResume? || step.Return?
  }

  /** The executor runs `cancel_on_executor` only between turns of the coroutine, so not
      while that is still on its way into the queue. */
  predicate MayMove(k: Task, step: Step)
    requires Moves(step)
  {
    match step
    case SlotCancel(_) => true
    case Check(_) => k.pc == Entered
    case FinishFast(_) => k.pc == Fast
    case Arm(_) => k.pc == Missed
    case RequestCancel(_) => k.slotCancelled && Installed(k)
    case CancelExchange(_) => k.cancelRequested && k.cancel == CancelIdle && k.pc != Armed
    case CancelResume(_) => k.cancel == CancelResuming
    case Return(_) => k.pc == Ready
  }

  function Moved(k: Task, step: Step): Task
    requires Moves(step) && MayMove(k, step)
  {
    match step
    case SlotCancel(_) => k.(slotCancelled := true)
    case Check(_) => k.(pc := if k.slotCancelled then Finished(true) else Checked)
    case FinishFast(_) => k.(pc := Finished(k.slotCancelled))
    case Arm(_) => k.(pc := if k.slotCancelled then Finished(true) else Armed)
    case RequestCancel(_) => k.(cancelRequested := true)
    case CancelExchange(_) => if k.done then k else k.(done := true, cancelWon := true, cancel := CancelRemoving)
    case CancelResume(_) => k.(cancel := CancelDone, pc := Ready, resumes := k.resumes + 1)
    case Return(_) => k.(pc := Finished(!k.granted))
  }

  predicate Enabled(s: State, step: Step) {
    match step
    case Enter(t) => t !in s.tasks
    case TryFast(t) => Is(s, t, Checked) && s.holder == None
    case Suspend(t) => Is(s, t, Armed) && s.holder == None
    case CancelRemove(t) => t in s.tasks && s.tasks[t].cancel == CancelRemoving && s.holder == None
    case ReleaseBegin(r, count) =>
      s.holder == None && Pending(s, r) == [] && 0 < count && s.permits + count < SIZE_MOD
    case ReleaseGrant(r) => s.holder == Some(r) && s.permits > 0 && s.queue != [] && s.queue[0] in s.tasks
    case ReleaseEnd(r) => s.holder == Some(r) && (s.permits == 0 || s.queue == [])
    case ReleaseResume(r) => s.holder != Some(r) && Pending(s, r) != [] && Pending(s, r)[0] in s.tasks
    case _ => step.t in s.tasks && MayMove(s.tasks[step.t], step)
  }

  function Apply(s: State, step: Step): State
    requires Enabled(s, step)
  {
    match step
    case Enter(t) =>
      s.(tasks := s.tasks[t := FRESH])
    case TryFast(t) =>
      var s' := s.(queue := Live(s.queue, s.tasks, None));
      if s.permits == 0 then s'.(tasks := s.tasks[t := s.tasks[t].(pc := Missed)])
      else s'.(permits := s.permits - 1, tasks := s.tasks[t := s.tasks[t].(pc := Fast, permit := true)])
    case Suspend(t) =>
      var live := Live(s.queue, s.tasks, None);
      if s.permits > 0 then
        s.(queue := live, permits := s.permits - 1,
           tasks := s.tasks[t := s.tasks[t].(pc := Ready, done := true, granted := true, permit := true)])
      else
        s.(queue := live + [t], tickets := s.tickets + 1,
           tasks := s.tasks[t := s.tasks[t].(pc := Waiting, queuedAt := Some(s.tickets))])
    case CancelRemove(t) =>
      s.(queue := Live(s.queue, s.tasks, Some(t)),
         tasks := s.tasks[t := s.tasks[t].(cancel := CancelResuming)])
    case ReleaseBegin(r, count) =>
      s.(permits := s.permits + count, released := s.released + count,
         queue := Live(s.queue, s.tasks, None), holder := Some(r))
    case ReleaseGrant(r) =>
      var c := s.queue[0];
      if s.tasks[c].done then s.(queue := s.queue[1..])
      else s.(queue := s.queue[1..], permits := s.permits - 1, grants := s.grants + [c],
              tasks := s.tasks[c := s.tasks[c].(done := true, granted := true, permit := true, waker := Some(r))],
              wakeups := s.wakeups[r := Pending(s, r) + [c]])
    case ReleaseEnd(r) =>
      s.(holder := None)
    case ReleaseResume(r) =>
      var w := Pending(s, r)[0];
      s.(wakeups := s.wakeups[r := Pending(s, r)[1..]],
         tasks := s.tasks[w := s.tasks[w].(pc := Ready, resumes := s.tasks[w].resumes + 1)])
    case _ =>
      s.(tasks := s.tasks[step.t := Moved(s.tasks[step.t], step)])
  }

  /** `s` is reached from a new semaphore by some sequence of enabled steps. */
  ghost predicate Reachable(s: State) {
    exists initial, steps :: Runs(Init(initial), steps, s)
  }

  ghost predicate Runs(from: State, steps: seq<Step>, to: State)
    decreases |steps|
  {
    if steps == [] then from == to
    else Enabled(from, steps[0]) && Runs(Apply(from, steps[0]), steps[1..], to)
  }

  // ---------------------------------------------------------------- invariant

  /** The acquires that took a permit, whether they returned, threw or are still under way. */
  function Holders(tasks: map<TaskId, Task>): set<TaskId> {
    set t | t in tasks && tasks[t].permit
  }

  /** The acquires that returned to their caller. */
  function Returned(tasks: map<TaskId, Task>): set<TaskId> {
    set t | t in tasks && tasks[t].pc == Finished(false)
  }

  /** The flags, counters and program counters of one acquire fit together. */
  predicate TaskOk(k: Task) {
    && (k.done <==> k.granted || k.cancelWon) && !(k.granted && k.cancelWon) && k.resumes <= 1
    && (k.granted ==> k.permit) && (k.cancelRequested ==> k.slotCancelled && Installed(k))
    && (k.cancelWon ==> k.slotCancelled)
    && (k.cancel == CancelIdle <==> !k.cancelWon) && (k.cancel == CancelDone ==> k.resumes == 1)
    && (k.waker.Some? ==> k.granted && k.queuedAt.Some?)
    && match k.pc
       case Fast => !k.done && k.permit && k.resumes == 0 && k.queuedAt.None?
       case Entered => !k.done && !k.permit && k.resumes == 0 && k.queuedAt.None?
       case Checked => !k.done && !k.permit && k.resumes == 0 && k.queuedAt.None?
       case Missed => !k.done && !k.permit && k.resumes == 0 && k.queuedAt.None?
       case Armed => !k.done && !k.permit && k.resumes == 0 && k.queuedAt.None?
       case Waiting => k.queuedAt.Some? && k.resumes == 0 && (k.permit ==> k.granted) && (k.granted ==> k.waker.Some?)
       case Ready =>
         k.done && (k.permit ==> k.granted) && (k.queuedAt.Some? <==> k.resumes == 1)
         && (k.queuedAt.None? ==> k.granted) && k.cancel != CancelRemoving && k.cancel != CancelResuming
       case Finished(threw) =>
         && (k.queuedAt.Some? ==> k.done && k.resumes == 1 && (threw <==> !k.granted) && (k.permit ==> k.granted))
         && (k.queuedAt.None? ==> k.resumes == 0 && !k.cancelWon && (k.granted ==> !threw))
         && (!threw ==> k.permit) && (threw ==> k.slotCancelled) && k.cancel != CancelRemoving && k.cancel != CancelResuming
  }

  ghost predicate TasksOk(tasks: map<TaskId, Task>, tickets: nat) {
    forall t :: t in tasks ==> TaskOk(tasks[t]) && TicketOf(tasks, t) <= tickets && (tasks[t].queuedAt.Some? ==> TicketOf(tasks, t) < tickets)
  }

  function TicketOf(tasks: map<TaskId, Task>, t: TaskId): nat {
    if t in tasks && tasks[t].queuedAt.Some? then tasks[t].queuedAt.value else 0
  }

  ghost predicate Ascending(queue: seq<TaskId>, tasks: map<TaskId, Task>) {
    forall i, j :: 0 <= i < j < |queue| ==> TicketOf(tasks, queue[i]) < TicketOf(tasks, queue[j])
  }

  /** Suspended and neither granted nor past its own removal from the queue. */
  predicate MayQueue(tasks: map<TaskId, Task>, t: TaskId) {
    t in tasks && tasks[t].pc == Waiting && !tasks[t].granted && tasks[t].cancel != CancelResuming
  }

  /** The queue holds every unsettled waiter, in the order they were enqueued. */
  ghost predicate QueueOk(queue: seq<TaskId>, tasks: map<TaskId, Task>) {
    && Ascending(queue, tasks)
    && (forall t :: t in queue ==> MayQueue(tasks, t))
    && (forall t :: Unsettled(tasks, t) ==> t in queue)
  }

  predicate QueueGrant(tasks: map<TaskId, Task>, t: TaskId) {
    t in tasks && tasks[t].granted && tasks[t].queuedAt.Some?
  }

  /** Grants from the queue come in enqueue order, ahead of everything still queued. */
  ghost predicate GrantsOk(grants: seq<TaskId>, queue: seq<TaskId>, tasks: map<TaskId, Task>) {
    && Ascending(grants, tasks)
    && (forall t :: t in grants <==> QueueGrant(tasks, t))
    && (forall g, q :: g in grants && q in queue ==> TicketOf(tasks, g) < TicketOf(tasks, q))
  }

  predicate OwedBy(tasks: map<TaskId, Task>, t: TaskId, r: Thread) {
    t in tasks && tasks[t].pc == Waiting && tasks[t].granted && tasks[t].waker == Some(r)
  }

  function PendingOf(wakeups: map<Thread, seq<TaskId>>, r: Thread): seq<TaskId> {
    if r in wakeups then wakeups[r] else []
  }

  ghost predicate Distinct(ts: seq<TaskId>) {
    forall i, j :: 0 <= i < j < |ts| ==> ts[i] != ts[j]
  }

  /** A granted waiter is still to be resumed exactly by the thread that granted it. */
  ghost predicate WakeupsOk(wakeups: map<Thread, seq<TaskId>>, tasks: map<TaskId, Task>) {
    forall r :: Distinct(PendingOf(wakeups, r)) && forall t :: t in PendingOf(wakeups, r) <==> OwedBy(tasks, t, r)
  }

  ghost predicate Inv(s: State) {
    && TasksOk(s.tasks, s.tickets)
    && QueueOk(s.queue, s.tasks)
    && GrantsOk(s.grants, s.queue, s.tasks)
    && WakeupsOk(s.wakeups, s.tasks)
    && (s.holder == None ==> s.permits == 0 || s.queue == [])
    && s.initial + s.released == s.permits + |Holders(s.tasks)|
  }

  lemma {:induction false} SmallerSet(a: set<TaskId>, b: set<TaskId>)
    requires a <= b
    ensures |a| <= |b|
  {
    if a != {} {
      var x :| x in a;
      SmallerSet(a - {x}, b - {x});
    }
  }

  // ------------------------------------------------------------ preservation

  lemma {:induction false} LiveMembers(queue: seq<TaskId>, tasks: map<TaskId, Task>, gone: Option<TaskId>)
    ensures forall t :: t in Live(queue, tasks, gone) <==>
                        t in queue && gone != Some(t) && !(t in tasks && tasks[t].done)
  {
    if queue != [] {
      LiveMembers(queue[1..], tasks, gone);
      assert forall t :: t in queue <==> t == queue[0] || t in queue[1..];
    }
  }

  lemma AscendingCons(q: TaskId, rest: seq<TaskId>, tasks: map<TaskId, Task>)
    requires Ascending(rest, tasks) && forall t :: t in rest ==> TicketOf(tasks, q) < TicketOf(tasks, t)
    ensures Ascending([q] + rest, tasks)
  {
    var all := [q] + rest;
    forall i, j | 0 <= i < j < |all| ensures TicketOf(tasks, all[i]) < TicketOf(tasks, all[j]) {
      assert all[j] == rest[j - 1] && rest[j - 1] in rest;
      assert i > 0 ==> all[i] == rest[i - 1];
    }
  }

  lemma AscendingSnoc(rest: seq<TaskId>, q: TaskId, tasks: map<TaskId, Task>)
    requires Ascending(rest, tasks) && forall t :: t in rest ==> TicketOf(tasks, t) < TicketOf(tasks, q)
    ensures Ascending(rest + [q], tasks)
  {
    var all := rest + [q];
    forall i, j | 0 <= i < j < |all| ensures TicketOf(tasks, all[i]) < TicketOf(tasks, all[j]) {
      assert all[i] == rest[i] && rest[i] in rest;
      assert j < |rest| ==> all[j] == rest[j];
    }
  }

  lemma AscendingTail(queue: seq<TaskId>, tasks: map<TaskId, Task>)
    requires queue != [] && Ascending(queue, tasks)
    ensures Ascending(queue[1..], tasks) && forall t :: t in queue[1..] ==> TicketOf(tasks, queue[0]) < TicketOf(tasks, t)
  {
  }

  lemma {:induction false} LiveAscending(queue: seq<TaskId>, tasks: map<TaskId, Task>, gone: Option<TaskId>)
    requires Ascending(queue, tasks)
    ensures Ascending(Live(queue, tasks, gone), tasks)
  {
    if queue != [] {
      AscendingTail(queue, tasks);
      LiveAscending(queue[1..], tasks, gone);
      LiveMembers(queue[1..], tasks, gone);
      AscendingCons(queue[0], Live(queue[1..], tasks, gone), tasks);
      assert [] + Live(queue[1..], tasks, gone) == Live(queue[1..], tasks, gone);
    }
  }

  /** Compacting drops settled waiters only, so it keeps what the queue promises. */
  lemma CompactKeeps(queue: seq<TaskId>, grants: seq<TaskId>, tasks: map<TaskId, Task>, gone: Option<TaskId>)
    requires QueueOk(queue, tasks) && GrantsOk(grants, queue, tasks)
    requires gone.Some? ==> gone.value in tasks && tasks[gone.value].done
    ensures QueueOk(Live(queue, tasks, gone), tasks) && GrantsOk(grants, Live(queue, tasks, gone), tasks)
    ensures queue == [] ==> Live(queue, tasks, gone) == []
    ensures gone.Some? ==> gone.value !in Live(queue, tasks, gone)
  {
    LiveMembers(queue, tasks, gone);
    LiveAscending(queue, tasks, gone);
  }

  ghost predicate SameTickets(tasks: map<TaskId, Task>, tasks': map<TaskId, Task>) {
    forall x :: TicketOf(tasks', x) == TicketOf(tasks, x)
  }

  lemma AscendingTransfer(ts: seq<TaskId>, tasks: map<TaskId, Task>, tasks': map<TaskId, Task>)
    requires Ascending(ts, tasks) && SameTickets(tasks, tasks')
    ensures Ascending(ts, tasks')
  {
  }

  predicate Unsettled(tasks: map<TaskId, Task>, t: TaskId) {
    t in tasks && tasks[t].pc == Waiting && !tasks[t].done
  }

  lemma QueueTransfer(queue: seq<TaskId>, tasks: map<TaskId, Task>, tasks': map<TaskId, Task>)
    requires QueueOk(queue, tasks) && SameTickets(tasks, tasks')
    requires forall t :: t in queue ==> MayQueue(tasks', t)
    requires forall t :: Unsettled(tasks', t) ==> Unsettled(tasks, t)
    ensures QueueOk(queue, tasks')
  {
    AscendingTransfer(queue, tasks, tasks');
  }

  lemma GrantsTransfer(grants: seq<TaskId>, queue: seq<TaskId>, tasks: map<TaskId, Task>, tasks': map<TaskId, Task>)
    requires GrantsOk(grants, queue, tasks) && SameTickets(tasks, tasks')
    requires forall t :: QueueGrant(tasks', t) <==> QueueGrant(tasks, t)
    ensures GrantsOk(grants, queue, tasks')
  {
    AscendingTransfer(grants, tasks, tasks');
  }

  lemma WakeupsTransfer(wakeups: map<Thread, seq<TaskId>>, tasks: map<TaskId, Task>, tasks': map<TaskId, Task>)
    requires WakeupsOk(wakeups, tasks)
    requires forall t, r :: OwedBy(tasks', t, r) <==> OwedBy(tasks, t, r)
    ensures WakeupsOk(wakeups, tasks')
  {
  }

  /** An update of one acquire that takes no permit, grants nothing and does not suspend or resume it. */
  predicate Quiet(k: Task, k': Task) {
    && k'.queuedAt == k.queuedAt && k'.granted == k.granted && k'.permit == k.permit && k'.waker == k.waker
    && (k'.pc == Waiting <==> k.pc == Waiting) && (k.done ==> k'.done)
    && (k'.cancel == CancelResuming ==> k.cancel == CancelResuming)
  }

  lemma QuietUpdate(s: State, t: TaskId, k': Task)
    requires Inv(s) && t in s.tasks && Quiet(s.tasks[t], k') && TaskOk(k')
    ensures Inv(s.(tasks := s.tasks[t := k']))
  {
    hide QueueOk, GrantsOk, WakeupsOk, TaskOk;
    var tasks' := s.tasks[t := k'];
    assert Holders(tasks') == Holders(s.tasks);
    QueueTransfer(s.queue, s.tasks, tasks') by { QueueMembers(s.queue, s.tasks); }
    GrantsTransfer(s.grants, s.queue, s.tasks, tasks');
    WakeupsTransfer(s.wakeups, s.tasks, tasks');
  }

  lemma QueueMembers(queue: seq<TaskId>, tasks: map<TaskId, Task>)
    requires QueueOk(queue, tasks)
    ensures forall t :: t in queue ==> MayQueue(tasks, t)
    ensures forall t :: Unsettled(tasks, t) ==> t in queue
  {
  }

  lemma AddHolder(tasks: map<TaskId, Task>, t: TaskId, k': Task)
    requires k'.permit && !(t in tasks && tasks[t].permit)
    ensures |Holders(tasks[t := k'])| == |Holders(tasks)| + 1
  {
    assert Holders(tasks[t := k']) == Holders(tasks) + {t};
  }

  lemma SameHolders(tasks: map<TaskId, Task>, t: TaskId, k': Task)
    requires k'.permit == (t in tasks && tasks[t].permit)
    ensures Holders(tasks[t := k']) == Holders(tasks)
  {
  }

  lemma TasksUpdate(tasks: map<TaskId, Task>, tickets: nat, t: TaskId, k': Task, tickets': nat)
    requires TasksOk(tasks, tickets) && TaskOk(k') && tickets <= tickets'
    requires k'.queuedAt.Some? ==> k'.queuedAt.value < tickets'
    ensures TasksOk(tasks[t := k'], tickets')
  {
  }

  /** A task that is not, and was not, suspended, and keeps its place in no queue. */
  predicate Loose(tasks: map<TaskId, Task>, t: TaskId, k': Task) {
    && k'.pc != Waiting && k'.queuedAt == None
    && (t in tasks ==> tasks[t].pc != Waiting && tasks[t].queuedAt == None)
  }

  /** The queue, the grants and the wakeups do not notice a task that never suspends. */
  lemma LooseUpdate(s: State, queue: seq<TaskId>, t: TaskId, k': Task)
    requires QueueOk(queue, s.tasks) && GrantsOk(s.grants, queue, s.tasks) && WakeupsOk(s.wakeups, s.tasks)
    requires Loose(s.tasks, t, k')
    ensures var tasks' := s.tasks[t := k'];
            QueueOk(queue, tasks') && GrantsOk(s.grants, queue, tasks') && WakeupsOk(s.wakeups, tasks')
  {
    hide QueueOk, GrantsOk, WakeupsOk;
    var tasks' := s.tasks[t := k'];
    QueueTransfer(queue, s.tasks, tasks') by { QueueMembers(queue, s.tasks); }
    GrantsTransfer(s.grants, queue, s.tasks, tasks');
    WakeupsTransfer(s.wakeups, s.tasks, tasks');
  }

  lemma TryFastKeeps(s: State, t: TaskId)
    requires Inv(s) && Enabled(s, TryFast(t))
    ensures Inv(Apply(s, TryFast(t)))
  {
    hide QueueOk, GrantsOk, WakeupsOk, TasksOk;
    var live := Live(s.queue, s.tasks, None);
    var k' := Apply(s, TryFast(t)).tasks[t];
    assert TaskOk(s.tasks[t]) && TaskOk(k') by { TaskIsOk(s, t); }
    CompactKeeps(s.queue, s.grants, s.tasks, None);
    LooseUpdate(s, live, t, k');
    TasksUpdate(s.tasks, s.tickets, t, k', s.tickets);
    if s.permits == 0 {
      SameHolders(s.tasks, t, k');
    } else {
      AddHolder(s.tasks, t, k');
    }
  }

  lemma EnterKeeps(s: State, t: TaskId)
    requires Inv(s) && Enabled(s, Enter(t))
    ensures Inv(Apply(s, Enter(t)))
  {
    hide QueueOk, GrantsOk, WakeupsOk, TasksOk;
    LooseUpdate(s, s.queue, t, FRESH);
    TasksUpdate(s.tasks, s.tickets, t, FRESH, s.tickets);
    SameHolders(s.tasks, t, FRESH);
  }

  lemma MovedOk(k: Task, step: Step)
    requires TaskOk(k) && Moves(step) && !step.CancelResume? && MayMove(k, step)
    ensures TaskOk(Moved(k, step)) && Quiet(k, Moved(k, step))
  {
  }

  lemma MovedPermit(k: Task, step: Step)
    requires Moves(step) && MayMove(k, step)
    ensures Moved(k, step).permit == k.permit && (k.pc == Finished(false) && TaskOk(k) ==> Moved(k, step).pc == k.pc)
  {
  }

  lemma MoveKeeps(s: State, step: Step)
    requires Inv(s) && Enabled(s, step) && Moves(step) && !step.CancelResume?
    ensures Inv(Apply(s, step))
  {
    hide Inv, TaskOk, Quiet, Moved;
    TaskIsOk(s, step.t);
    MovedOk(s.tasks[step.t], step);
    QuietUpdate(s, step.t, Moved(s.tasks[step.t], step));
  }

  lemma SuspendKeeps(s: State, t: TaskId)
    requires Inv(s) && Enabled(s, Suspend(t))
    ensures Inv(Apply(s, Suspend(t)))
  {
    hide QueueOk, GrantsOk, WakeupsOk, TasksOk;
    var live := Live(s.queue, s.tasks, None);
    var k' := Apply(s, Suspend(t)).tasks[t];
    assert TaskOk(s.tasks[t]) && TaskOk(k') by { TaskIsOk(s, t); }
    CompactKeeps(s.queue, s.grants, s.tasks, None);
    TasksUpdate(s.tasks, s.tickets, t, k', Apply(s, Suspend(t)).tickets);
    if s.permits > 0 {
      LooseUpdate(s, live, t, k');
      AddHolder(s.tasks, t, k');
    } else {
      EnqueueKeeps(s, live, t, k');
      SameHolders(s.tasks, t, k');
    }
  }

  lemma TaskIsOk(s: State, t: TaskId)
    requires Inv(s) && t in s.tasks
    ensures TaskOk(s.tasks[t])
  {
  }

  lemma QueueTicketsBelow(queue: seq<TaskId>, grants: seq<TaskId>, tasks: map<TaskId, Task>, tickets: nat)
    requires TasksOk(tasks, tickets) && QueueOk(queue, tasks) && GrantsOk(grants, queue, tasks)
    ensures forall x :: x in queue || x in grants ==> x in tasks && tasks[x].queuedAt.Some? && TicketOf(tasks, x) < tickets
  {
    assert forall x :: x in grants ==> QueueGrant(tasks, x);
    assert forall x :: x in queue ==> MayQueue(tasks, x) && TaskOk(tasks[x]);
  }

  lemma AscendingElsewhere(ts: seq<TaskId>, tasks: map<TaskId, Task>, t: TaskId, k': Task)
    requires Ascending(ts, tasks) && t !in ts
    ensures Ascending(ts, tasks[t := k'])
  {
  }

  /** A waiter that joins the queue takes the newest ticket, so it joins at the end. */
  lemma EnqueueKeeps(s: State, queue: seq<TaskId>, t: TaskId, k': Task)
    requires TasksOk(s.tasks, s.tickets) && Is(s, t, Armed)
    requires QueueOk(queue, s.tasks) && GrantsOk(s.grants, queue, s.tasks) && WakeupsOk(s.wakeups, s.tasks)
    requires k' == s.tasks[t].(pc := Waiting, queuedAt := Some(s.tickets))
    ensures var tasks' := s.tasks[t := k'];
            && QueueOk(queue + [t], tasks') && GrantsOk(s.grants, queue + [t], tasks') && WakeupsOk(s.wakeups, tasks')
  {
    hide Ascending;
    var tasks' := s.tasks[t := k'];
    assert TaskOk(s.tasks[t]);
    WakeupsTransfer(s.wakeups, s.tasks, tasks');
    QueueTicketsBelow(queue, s.grants, s.tasks, s.tickets);
    assert forall x :: x in queue || x in s.grants ==> x != t && TicketOf(tasks', x) == TicketOf(s.tasks, x);
    AscendingElsewhere(queue, s.tasks, t, k');
    AscendingElsewhere(s.grants, s.tasks, t, k');
    AscendingSnoc(queue, t, tasks');
  }

  lemma CancelRemoveKeeps(s: State, t: TaskId)
    requires Inv(s) && Enabled(s, CancelRemove(t))
    ensures Inv(Apply(s, CancelRemove(t)))
  {
    hide QueueOk, GrantsOk, WakeupsOk, TasksOk;
    var live := Live(s.queue, s.tasks, Some(t));
    var k' := s.tasks[t].(cancel := CancelResuming);
    var tasks' := s.tasks[t := k'];
    TaskIsOk(s, t);
    CompactKeeps(s.queue, s.grants, s.tasks, Some(t));
    QueueTransfer(live, s.tasks, tasks') by { QueueMembers(live, s.tasks); }
    GrantsTransfer(s.grants, live, s.tasks, tasks');
    WakeupsTransfer(s.wakeups, s.tasks, tasks');
    TasksUpdate(s.tasks, s.tickets, t, k', s.tickets) by { TicketBelow(s, t); }
    SameHolders(s.tasks, t, k');
  }

  lemma TicketBelow(s: State, t: TaskId)
    requires Inv(s) && t in s.tasks
    ensures s.tasks[t].queuedAt.Some? ==> s.tasks[t].queuedAt.value < s.tickets
  {
  }

  lemma CancelResumeKeeps(s: State, t: TaskId)
    requires Inv(s) && Enabled(s, CancelResume(t))
    ensures Inv(Apply(s, CancelResume(t)))
  {
    hide QueueOk, GrantsOk, WakeupsOk, TasksOk;
    var k' := Apply(s, CancelResume(t)).tasks[t];
    var tasks' := s.tasks[t := k'];
    TaskIsOk(s, t);
    TicketBelow(s, t);
    QueueTransfer(s.queue, s.tasks, tasks') by { QueueMembers(s.queue, s.tasks); }
    GrantsTransfer(s.grants, s.queue, s.tasks, tasks');
    WakeupsTransfer(s.wakeups, s.tasks, tasks');
    TasksUpdate(s.tasks, s.tickets, t, k', s.tickets);
    SameHolders(s.tasks, t, k');
  }

  lemma ReleaseBeginKeeps(s: State, r: Thread, count: nat)
    requires Inv(s) && Enabled(s, ReleaseBegin(r, count))
    ensures Inv(Apply(s, ReleaseBegin(r, count)))
  {
    hide QueueOk, GrantsOk, WakeupsOk, TasksOk;
    CompactKeeps(s.queue, s.grants, s.tasks, None);
  }

  lemma ReleaseGrantKeeps(s: State, r: Thread)
    requires Inv(s) && Enabled(s, ReleaseGrant(r))
    ensures Inv(Apply(s, ReleaseGrant(r)))
  {
    hide QueueOk, GrantsOk, WakeupsOk, TasksOk;
    var c := s.queue[0];
    TaskIsOk(s, c);
    TicketBelow(s, c);
    if s.tasks[c].done {
      PopSettled(s);
    } else {
      var k' := Apply(s, ReleaseGrant(r)).tasks[c];
      assert MayQueue(s.tasks, c) by { QueueMembers(s.queue, s.tasks); }
      PopGranted(s, r, k');
      TasksUpdate(s.tasks, s.tickets, c, k', s.tickets);
      AddHolder(s.tasks, c, k');
    }
  }

  lemma PopSettled(s: State)
    requires s.queue != [] && s.queue[0] in s.tasks && s.tasks[s.queue[0]].done
    requires QueueOk(s.queue, s.tasks) && GrantsOk(s.grants, s.queue, s.tasks)
    ensures QueueOk(s.queue[1..], s.tasks) && GrantsOk(s.grants, s.queue[1..], s.tasks)
  {
    AscendingTail(s.queue, s.tasks);
    assert forall t :: t in s.queue <==> t == s.queue[0] || t in s.queue[1..];
  }

  /** Granting the head of the queue keeps the grants in order, because the head has the
      smallest ticket of the queue and a larger one than every earlier grant. */
  lemma PopGranted(s: State, r: Thread, k': Task)
    requires s.queue != [] && MayQueue(s.tasks, s.queue[0]) && s.tasks[s.queue[0]].queuedAt.Some?
    requires QueueOk(s.queue, s.tasks) && GrantsOk(s.grants, s.queue, s.tasks) && WakeupsOk(s.wakeups, s.tasks)
    requires k' == s.tasks[s.queue[0]].(done := true, granted := true, permit := true, waker := Some(r))
    ensures var c := s.queue[0];
            var tasks' := s.tasks[c := k'];
            && QueueOk(s.queue[1..], tasks') && GrantsOk(s.grants + [c], s.queue[1..], tasks')
            && WakeupsOk(s.wakeups[r := Pending(s, r) + [c]], tasks')
  {
    hide Ascending;
    var c := s.queue[0];
    var tasks' := s.tasks[c := k'];
    assert SameTickets(s.tasks, tasks');
    AscendingTail(s.queue, s.tasks);
    assert forall t :: t in s.queue <==> t == c || t in s.queue[1..];
    assert c !in s.queue[1..];
    AscendingTransfer(s.queue[1..], s.tasks, tasks');
    AscendingSnoc(s.grants, c, s.tasks);
    AscendingTransfer(s.grants + [c], s.tasks, tasks');
    assert forall t :: QueueGrant(tasks', t) <==> t == c || QueueGrant(s.tasks, t);
    WakeupsAdd(s, r, c, k');
  }

  lemma DistinctSnoc(ts: seq<TaskId>, t: TaskId)
    requires Distinct(ts)
    ensures t !in ts ==> Distinct(ts + [t])
  {
  }

  lemma WakeupsAdd(s: State, r: Thread, c: TaskId, k': Task)
    requires WakeupsOk(s.wakeups, s.tasks) && MayQueue(s.tasks, c)
    requires k' == s.tasks[c].(done := true, granted := true, permit := true, waker := Some(r))
    ensures WakeupsOk(s.wakeups[r := Pending(s, r) + [c]], s.tasks[c := k'])
  {
    var wakeups', tasks' := s.wakeups[r := Pending(s, r) + [c]], s.tasks[c := k'];
    assert c in PendingOf(s.wakeups, r) <==> OwedBy(s.tasks, c, r);
    DistinctSnoc(Pending(s, r), c);
    forall q ensures Distinct(PendingOf(wakeups', q)) && forall t :: t in PendingOf(wakeups', q) <==> OwedBy(tasks', t, q) {
      assert Distinct(PendingOf(s.wakeups, q)) && forall t :: t in PendingOf(s.wakeups, q) <==> OwedBy(s.tasks, t, q);
    }
  }

  lemma ReleaseEndKeeps(s: State, r: Thread)
    requires Inv(s) && Enabled(s, ReleaseEnd(r))
    ensures Inv(Apply(s, ReleaseEnd(r)))
  {
    hide QueueOk, GrantsOk, WakeupsOk, TasksOk;
  }

  lemma ReleaseResumeKeeps(s: State, r: Thread)
    requires Inv(s) && Enabled(s, ReleaseResume(r))
    ensures Inv(Apply(s, ReleaseResume(r)))
  {
    hide QueueOk, GrantsOk, TasksOk;
    var w := Pending(s, r)[0];
    assert OwedBy(s.tasks, w, r);
    var k' := Apply(s, ReleaseResume(r)).tasks[w];
    var tasks' := s.tasks[w := k'];
    TaskIsOk(s, w);
    TicketBelow(s, w);
    QueueTransfer(s.queue, s.tasks, tasks') by { QueueMembers(s.queue, s.tasks); }
    GrantsTransfer(s.grants, s.queue, s.tasks, tasks');
    WakeupsRemove(s, r, k');
    TasksUpdate(s.tasks, s.tickets, w, k', s.tickets);
    SameHolders(s.tasks, w, k');
  }

  lemma DistinctTail(ts: seq<TaskId>)
    requires ts != [] && Distinct(ts)
    ensures Distinct(ts[1..]) && ts[0] !in ts[1..] && forall t :: t in ts <==> t == ts[0] || t in ts[1..]
  {
    var rest := ts[1..];
    assert forall i :: 0 <= i < |rest| ==> rest[i] == ts[i + 1];
  }

  lemma WakeupsRemove(s: State, r: Thread, k': Task)
    requires WakeupsOk(s.wakeups, s.tasks) && Pending(s, r) != [] && k'.pc != Waiting
    ensures WakeupsOk(s.wakeups[r := Pending(s, r)[1..]], s.tasks[Pending(s, r)[0] := k'])
  {
    var p := Pending(s, r);
    var w := p[0];
    var wakeups', tasks' := s.wakeups[r := p[1..]], s.tasks[w := k'];
    DistinctTail(p);
    assert OwedBy(s.tasks, w, r);
    forall q ensures Distinct(PendingOf(wakeups', q)) && forall t :: t in PendingOf(wakeups', q) <==> OwedBy(tasks', t, q) {
      assert Distinct(PendingOf(s.wakeups, q)) && forall t :: t in PendingOf(s.wakeups, q) <==> OwedBy(s.tasks, t, q);
    }
  }

  /** Every step keeps the invariant. */
  lemma StepKeeps(s: State, step: Step)
    requires Inv(s) && Enabled(s, step)
    ensures Inv(Apply(s, step))
  {
    hide Inv, Apply;
    match step {
      case TryFast(t) => TryFastKeeps(s, t);
      case Enter(t) => EnterKeeps(s, t);
      case Suspend(t) => SuspendKeeps(s, t);
      case CancelRemove(t) => CancelRemoveKeeps(s, t);
      case CancelResume(t) => CancelResumeKeeps(s, t);
      case ReleaseBegin(r, count) => ReleaseBeginKeeps(s, r, count);
      case ReleaseGrant(r) => ReleaseGrantKeeps(s, r);
      case ReleaseEnd(r) => ReleaseEndKeeps(s, r);
      case ReleaseResume(r) => ReleaseResumeKeeps(s, r);
      case _ => MoveKeeps(s, step);
    }
  }

  // ----------------------------------------------------------------- theorems

  lemma {:induction false} RunKeeps(from: State, steps: seq<Step>, to: State)
    requires Inv(from) && Runs(from, steps, to)
    ensures Inv(to)
    decreases |steps|
  {
    hide Inv;
    if steps != [] {
      StepKeeps(from, steps[0]);
      RunKeeps(Apply(from, steps[0]), steps[1..], to);
    }
  }

  lemma InitInv(initial: nat)
    ensures Inv(Init(initial))
  {
    assert Holders(map[]) == {};
  }

  /** In every run, the permits put in are the permits left plus the acquires that took one. */
  lemma Conservation(s: State)
    requires Reachable(s)
    ensures s.initial + s.released == s.permits + |Holders(s.tasks)|
  {
    ReachableInv(s);
  }

  lemma ReachableInv(s: State)
    requires Reachable(s)
    ensures Inv(s)
  {
    var initial, steps :| Runs(Init(initial), steps, s);
    InitInv(initial);
    RunKeeps(Init(initial), steps, s);
  }

  /** Whenever no critical section is open, a free permit means that nobody is queued. */
  lemma NoPermitBesideWaiters(s: State)
    requires Reachable(s) && s.holder == None && s.permits > 0
    ensures s.queue == []
  {
    ReachableInv(s);
  }

  /** Grants from the queue follow enqueue order, and a waiter that was enqueued before a
      granted one has itself been granted or cancelled: only cancelled ones are skipped. */
  lemma GrantsFollowTheQueue(s: State, early: TaskId, late: TaskId)
    requires Reachable(s) && early in s.tasks && s.tasks[early].queuedAt.Some?
    requires late in s.grants && TicketOf(s.tasks, early) < TicketOf(s.tasks, late)
    ensures (early in s.grants && !s.tasks[early].cancelWon) || (s.tasks[early].cancelWon && early !in s.grants)
    ensures Ascending(s.grants, s.tasks)
  {
    ReachableInv(s);
    TaskIsOk(s, early);
    QueueMembers(s.queue, s.tasks);
    assert QueueGrant(s.tasks, early) <==> early in s.grants;
  }

  /** A waiter is never both granted and cancelled, and its coroutine is resumed at most once. */
  lemma OneOutcome(s: State, t: TaskId)
    requires Reachable(s) && t in s.tasks
    ensures !(s.tasks[t].granted && s.tasks[t].cancelWon) && s.tasks[t].resumes <= 1
    ensures s.tasks[t].resumes == 1 ==> s.tasks[t].granted || s.tasks[t].cancelWon
  {
    ReachableInv(s);
    TaskIsOk(s, t);
  }

  /** No release and no cancellation is half done. */
  ghost predicate Quiescent(s: State) {
    && s.holder == None && (forall r :: Pending(s, r) == [])
    && forall t :: t in s.tasks ==> s.tasks[t].cancel != CancelRemoving && s.tasks[t].cancel != CancelResuming
  }

  /** No lost wakeup: at rest, whoever is still suspended is queued, unsettled, and
      there is no permit for it. */
  lemma NoLostWakeup(s: State, t: TaskId)
    requires Reachable(s) && Quiescent(s) && Is(s, t, Waiting)
    ensures t in s.queue && !s.tasks[t].done && s.permits == 0
  {
    ReachableInv(s);
    NoLostWakeupInv(s, t);
  }

  lemma NoLostWakeupInv(s: State, t: TaskId)
    requires Inv(s) && Quiescent(s) && Is(s, t, Waiting)
    ensures t in s.queue && !s.tasks[t].done && s.permits == 0
  {
    TaskIsOk(s, t);
    assert forall r :: OwedBy(s.tasks, t, r) ==> t in PendingOf(s.wakeups, r) && PendingOf(s.wakeups, r) == Pending(s, r);
    assert s.tasks[t].granted ==> OwedBy(s.tasks, t, s.tasks[t].waker.value);
    QueueMembers(s.queue, s.tasks);
  }

  /** An acquire throws only if its slot was cancelled: the branch that reports a failed
      acquire without a cancellation is never taken. */
  lemma ThrowsOnlyWhenCancelled(s: State, t: TaskId)
    requires Reachable(s) && Is(s, t, Finished(true))
    ensures s.tasks[t].slotCancelled
  {
    ReachableInv(s);
    TaskIsOk(s, t);
  }

  // ------------------------------------------------ an uninterrupted release

  function Smaller(a: nat, b: nat): nat {
    if a <= b then a else b
  }

  lemma RunsNone(s: State)
    ensures Runs(s, [], s)
  {
  }

  lemma {:induction false} RunsSnoc(from: State, steps: seq<Step>, mid: State, step: Step)
    requires Runs(from, steps, mid) && Enabled(mid, step)
    ensures Runs(from, steps + [step], Apply(mid, step))
    decreases |steps|
  {
    if steps == [] {
      assert steps + [step] == [step] && [step][1..] == [];
    } else {
      assert (steps + [step])[1..] == steps[1..] + [step];
      RunsSnoc(Apply(from, steps[0]), steps[1..], mid, step);
    }
  }

  /** The loop of `release(count)` when nothing interferes: it is a run of the machine,
      it leaves `_mu`, and it grants the oldest live waiters, as many as there are
      permits for. */
  method ReleaseAlone(s: State, r: Thread, count: nat) returns (s': State, ghost steps: seq<Step>)
    requires Inv(s) && Enabled(s, ReleaseBegin(r, count))
    ensures Runs(s, steps, s') && Inv(s') && s'.holder == None
    ensures var live := Live(s.queue, s.tasks, None);
            var n := Smaller(s.permits + count, |live|);
            s'.queue == live[n..] && s'.grants == s.grants + live[..n] && s'.permits == s.permits + count - n
  {
    hide Inv, Runs, AllUnsettled, Live;
    var live := Live(s.queue, s.tasks, None);
    steps := [ReleaseBegin(r, count)];
    s' := Apply(s, ReleaseBegin(r, count));
    RunsNone(s);
    assert [] + steps == steps;
    RunsSnoc(s, [], s, ReleaseBegin(r, count));
    StepKeeps(s, ReleaseBegin(r, count));
    ghost var n := 0;
    AllLive(s, live);
    assert live[0..] == live;
    while s'.permits > 0 && s'.queue != []
      invariant Runs(s, steps, s') && Inv(s') && s'.holder == Some(r)
      invariant 0 <= n <= |live| && s'.queue == live[n..] && s'.grants == s.grants + live[..n]
      invariant s'.permits + n == s.permits + count
      invariant AllUnsettled(s'.tasks, live[n..])
      decreases |s'.queue|
    {
      GrantAlone(s', r);
      RunsSnoc(s, steps, s', ReleaseGrant(r));
      StepKeeps(s', ReleaseGrant(r));
      steps := steps + [ReleaseGrant(r)];
      s' := Apply(s', ReleaseGrant(r));
      NextSlice(s.grants, live, n);
      n := n + 1;
    }
    RunsSnoc(s, steps, s', ReleaseEnd(r));
    StepKeeps(s', ReleaseEnd(r));
    steps := steps + [ReleaseEnd(r)];
    s' := Apply(s', ReleaseEnd(r));
  }

  lemma NextSlice(grants: seq<TaskId>, live: seq<TaskId>, n: nat)
    requires n < |live|
    ensures grants + live[..n] + [live[n..][0]] == grants + live[..n + 1] && live[n..][1..] == live[n + 1..]
  {
  }

  ghost predicate AllUnsettled(tasks: map<TaskId, Task>, ts: seq<TaskId>) {
    forall t :: t in ts ==> t in tasks && !tasks[t].done
  }

  /** One turn of the loop on a live head: it is granted, and the others stay as they are. */
  lemma GrantAlone(s: State, r: Thread)
    requires Inv(s) && s.holder == Some(r) && s.permits > 0 && s.queue != [] && AllUnsettled(s.tasks, s.queue)
    ensures Enabled(s, ReleaseGrant(r))
    ensures var s' := Apply(s, ReleaseGrant(r));
            && s'.queue == s.queue[1..] && s'.grants == s.grants + [s.queue[0]] && s'.permits == s.permits - 1
            && s'.holder == s.holder && AllUnsettled(s'.tasks, s'.queue)
  {
    AscendingTail(s.queue, s.tasks);
    assert s.queue[0] in s.queue && s.queue[0] !in s.queue[1..];
    assert forall t :: t in s.queue[1..] ==> t in s.queue;
  }

  lemma AllLive(s: State, live: seq<TaskId>)
    requires Inv(s) && live == Live(s.queue, s.tasks, None)
    ensures AllUnsettled(s.tasks, live)
  {
    LiveMembers(s.queue, s.tasks, None);
    QueueMembers(s.queue, s.tasks);
    assert forall t :: t in live ==> MayQueue(s.tasks, t);
  }

  // ------------------------------------------------------------- leaked permits

  /** The acquire ended by throwing although it had taken a permit. */
  predicate Leaked(tasks: map<TaskId, Task>, t: TaskId) {
    t in tasks && tasks[t].pc == Finished(true) && tasks[t].permit
  }

  /** The slot was cancelled behind the check and before the acquire finished on the fast path. */
  ghost predicate CancelledInWindow(steps: seq<Step>, t: TaskId) {
    exists i, c, j :: 0 <= i < c < j < |steps| && steps[i] == Check(t) && steps[c] == SlotCancel(t) && steps[j] == FinishFast(t)
  }

  ghost predicate CheckedClean(steps: seq<Step>, t: TaskId) {
    exists i :: 0 <= i < |steps| && steps[i] == Check(t) && NotYetCancelled(steps, i, t)
  }

  ghost predicate NotYetCancelled(steps: seq<Step>, i: nat, t: TaskId)
    requires i <= |steps|
  {
    forall x :: 0 <= x < i ==> steps[x] != SlotCancel(t)
  }

  /** What the steps of a run say about acquire `t` in the state it reached. */
  ghost predicate Told(steps: seq<Step>, s: State, t: TaskId) {
    if t !in s.tasks then SlotCancel(t) !in steps && FinishFast(t) !in steps
    else
      var k := s.tasks[t];
      && (k.slotCancelled <==> SlotCancel(t) in steps)
      && (k.pc == Checked || k.pc == Fast ==> CheckedClean(steps, t))
      && (Leaked(s.tasks, t) ==> CancelledInWindow(steps, t))
      && (FinishFast(t) in steps ==> k.pc.Finished?)
      && (CancelledInWindow(steps, t) ==> Leaked(s.tasks, t))
  }

  /** What one step can do to an acquire, as far as leaks are concerned. */
  predicate Tells(k: Task, k': Task, step: Step, t: TaskId) {
    && (k'.slotCancelled <==> k.slotCancelled || step == SlotCancel(t))
    && (k.pc.Finished? ==> k'.pc == k.pc && k'.permit == k.permit)
    && (k'.pc == Checked ==> k.pc == Checked || (step == Check(t) && !k.slotCancelled))
    && (k'.pc == Fast ==> k.pc == Checked || k.pc == Fast)
    && (step == FinishFast(t) ==> k.pc == Fast && k'.pc == Finished(k.slotCancelled) && k'.permit)
    && (k'.pc == Finished(true) && k'.permit ==>
          (k.pc == Finished(true) && k.permit) || (step == FinishFast(t) && k.slotCancelled))
  }

  lemma MoveTells(k: Task, step: Step)
    requires TaskOk(k) && Moves(step) && MayMove(k, step)
    ensures Tells(k, Moved(k, step), step, step.t)
  {
  }

  lemma StepTells(s: State, step: Step, t: TaskId)
    requires Inv(s) && Enabled(s, step) && t in s.tasks
    ensures t in Apply(s, step).tasks && Tells(s.tasks[t], Apply(s, step).tasks[t], step, t)
  {
    hide Inv, TaskOk, Moved, Tells, Live, QueueOk, GrantsOk, WakeupsOk;
    TaskIsOk(s, t);
    NothingTold(s.tasks[t], step, t);
    if Moves(step) {
      if step.t == t {
        MoveTells(s.tasks[t], step);
      }
    } else {
      SharedTells(s, step, t);
    }
  }

  lemma NothingTold(k: Task, step: Step, t: TaskId)
    ensures step != SlotCancel(t) && step != FinishFast(t) ==> Tells(k, k, step, t)
  {
  }

  lemma SharedTells(s: State, step: Step, t: TaskId)
    requires Inv(s) && Enabled(s, step) && t in s.tasks && !Moves(step)
    ensures t in Apply(s, step).tasks && Tells(s.tasks[t], Apply(s, step).tasks[t], step, t)
  {
    hide Inv, TaskOk, Live;
    match step {
      case ReleaseGrant(r) => HeadWaits(s);
      case ReleaseResume(r) => WokenWaits(s, r);
      case _ =>
    }
  }

  lemma HeadWaits(s: State)
    requires Inv(s) && s.queue != []
    ensures MayQueue(s.tasks, s.queue[0])
  {
    QueueMembers(s.queue, s.tasks);
  }

  lemma WokenWaits(s: State, r: Thread)
    requires Inv(s) && Pending(s, r) != []
    ensures OwedBy(s.tasks, Pending(s, r)[0], r)
  {
    assert Pending(s, r)[0] in PendingOf(s.wakeups, r);
  }

  lemma StepAdds(s: State, step: Step, t: TaskId)
    requires Inv(s) && Enabled(s, step) && t !in s.tasks
    ensures step != SlotCancel(t) && step != FinishFast(t)
    ensures t in Apply(s, step).tasks ==> Apply(s, step).tasks[t] == FRESH
  {
    hide Live, GrantsOk, WakeupsOk, TaskOk, QueueOk;
  }

  lemma CleanGrows(steps: seq<Step>, step: Step, t: TaskId)
    ensures CheckedClean(steps, t) ==> CheckedClean(steps + [step], t)
    ensures step == Check(t) && SlotCancel(t) !in steps ==> CheckedClean(steps + [step], t)
  {
    var all := steps + [step];
    if CheckedClean(steps, t) {
      var i :| 0 <= i < |steps| && steps[i] == Check(t) && NotYetCancelled(steps, i, t);
      assert all[i] == Check(t) && NotYetCancelled(all, i, t);
    }
    if step == Check(t) && SlotCancel(t) !in steps {
      assert all[|steps|] == Check(t) && NotYetCancelled(all, |steps|, t);
    }
  }

  lemma WindowKept(steps: seq<Step>, step: Step, t: TaskId)
    requires CancelledInWindow(steps, t)
    ensures CancelledInWindow(steps + [step], t)
  {
    var all := steps + [step];
    var i, c, j :| 0 <= i < c < j < |steps| && steps[i] == Check(t) && steps[c] == SlotCancel(t) && steps[j] == FinishFast(t);
    assert all[i] == steps[i] && all[c] == steps[c] && all[j] == steps[j];
  }

  lemma WindowFrom(steps: seq<Step>, step: Step, t: TaskId)
    requires CancelledInWindow(steps + [step], t)
    ensures CancelledInWindow(steps, t) || (step == FinishFast(t) && SlotCancel(t) in steps)
  {
    var all := steps + [step];
    var i, c, j :| 0 <= i < c < j < |all| && all[i] == Check(t) && all[c] == SlotCancel(t) && all[j] == FinishFast(t);
    assert steps[i] == all[i] && steps[c] == all[c];
    if j < |steps| {
      assert steps[j] == all[j];
    }
  }

  lemma WindowNow(steps: seq<Step>, t: TaskId)
    requires CheckedClean(steps, t) && SlotCancel(t) in steps
    ensures CancelledInWindow(steps + [FinishFast(t)], t)
  {
    var all := steps + [FinishFast(t)];
    var i :| 0 <= i < |steps| && steps[i] == Check(t) && NotYetCancelled(steps, i, t);
    var c :| 0 <= c < |steps| && steps[c] == SlotCancel(t);
    assert all[i] == steps[i] && all[c] == steps[c] && all[|steps|] == FinishFast(t);
  }

  lemma WindowGrows(steps: seq<Step>, step: Step, t: TaskId)
    ensures CancelledInWindow(steps, t) ==> CancelledInWindow(steps + [step], t)
    ensures CancelledInWindow(steps + [step], t) ==>
              CancelledInWindow(steps, t) || (step == FinishFast(t) && SlotCancel(t) in steps)
    ensures step == FinishFast(t) && CheckedClean(steps, t) && SlotCancel(t) in steps ==> CancelledInWindow(steps + [step], t)
  {
    hide CancelledInWindow, CheckedClean;
    if CancelledInWindow(steps, t) {
      WindowKept(steps, step, t);
    }
    if CancelledInWindow(steps + [step], t) {
      WindowFrom(steps, step, t);
    }
    if step == FinishFast(t) && CheckedClean(steps, t) && SlotCancel(t) in steps {
      WindowNow(steps, t);
    }
  }

  lemma TellStep(steps: seq<Step>, s: State, step: Step, t: TaskId)
    requires Told(steps, s, t) && Inv(s) && Enabled(s, step)
    ensures Told(steps + [step], Apply(s, step), t)
  {
    hide Inv, Enabled, Apply, CheckedClean, CancelledInWindow;
    CleanGrows(steps, step, t);
    WindowGrows(steps, step, t);
    assert forall x :: x in steps + [step] <==> x in steps || x == step;
    if t in s.tasks {
      StepTells(s, step, t);
      assert Tells(s.tasks[t], Apply(s, step).tasks[t], step, t);
    } else {
      StepAdds(s, step, t);
      NoWindow(steps, t);
    }
  }

  lemma NoWindow(steps: seq<Step>, t: TaskId)
    requires SlotCancel(t) !in steps
    ensures !CancelledInWindow(steps, t)
  {
  }

  lemma {:induction false} TellRun(before: seq<Step>, from: State, steps: seq<Step>, to: State, t: TaskId)
    requires Told(before, from, t) && Inv(from) && Runs(from, steps, to)
    ensures Told(before + steps, to, t)
    decreases |steps|
  {
    hide Inv, Told;
    if steps == [] {
      assert before + steps == before;
    } else {
      TellStep(before, from, steps[0], t);
      StepKeeps(from, steps[0]);
      TellRun(before + [steps[0]], Apply(from, steps[0]), steps[1..], to, t);
      assert before + [steps[0]] + steps[1..] == before + steps;
    }
  }

  /** An acquire throws with its permit taken if and only if its slot was not cancelled at the
      check of `await_ready`, it got the permit on the fast path, and the slot was cancelled
      before `await_resume`: between the check and `try_acquire`, or behind it. */
  lemma LeakExactly(initial: nat, steps: seq<Step>, s: State, t: TaskId)
    requires Runs(Init(initial), steps, s)
    ensures Leaked(s.tasks, t) <==> CancelledInWindow(steps, t)
  {
    InitInv(initial);
    TellRun([], Init(initial), steps, s, t);
    assert [] + steps == steps;
    NoWindowWithoutSlot(steps, t);
  }

  lemma NoWindowWithoutSlot(steps: seq<Step>, t: TaskId)
    ensures CancelledInWindow(steps, t) ==> SlotCancel(t) in steps
  {
  }

  /** Both orders leak: the cancellation may come before or after `try_acquire`. */
  lemma FastPathLeak(early: bool) returns (s: State)
    ensures Reachable(s) && Leaked(s.tasks, 0) && s.permits == 0 && s.released == 0
  {
    hide Runs;
    var checked := FRESH.(pc := Checked);
    var s0, s1 := Init(1), Apply(Init(1), Enter(0));
    var s2 := Apply(s1, Check(0));
    assert s2 == Init(1).(tasks := map[0 := checked]);
    RunsNone(s0);
    RunsSnoc(s0, [], s0, Enter(0));
    RunsSnoc(s0, [] + [Enter(0)], s1, Check(0));
    s := LeakFrom([] + [Enter(0)] + [Check(0)], s2, early);
  }

  lemma LeakFrom(steps: seq<Step>, mid: State, early: bool) returns (s: State)
    requires Runs(Init(1), steps, mid) && mid == Init(1).(tasks := map[0 := FRESH.(pc := Checked)])
    ensures Reachable(s) && Leaked(s.tasks, 0) && s.permits == 0 && s.released == 0
  {
    hide Runs;
    var first, second := if early then SlotCancel(0) else TryFast(0), if early then TryFast(0) else SlotCancel(0);
    var s3 := Apply(mid, first);
    var s4 := Apply(s3, second);
    s := Apply(s4, FinishFast(0));
    RunsSnoc(Init(1), steps, mid, first);
    RunsSnoc(Init(1), steps + [first], s3, second);
    RunsSnoc(Init(1), steps + [first] + [second], s4, FinishFast(0));
  }

  /** A semaphore step leaves an acquire that has returned as it is. */
  lemma ReturnedGrow(s: State, step: Step)
    requires Inv(s) && Enabled(s, step)
    ensures Returned(s.tasks) <= Returned(Apply(s, step).tasks)
  {
    hide Inv, Apply, Enabled;
    forall t | t in Returned(s.tasks) ensures t in Returned(Apply(s, step).tasks) {
      StepTells(s, step, t);
    }
  }

  lemma ReturnedHold(s: State)
    requires Inv(s)
    ensures Returned(s.tasks) <= Holders(s.tasks)
  {
    forall t | t in Returned(s.tasks) ensures t in Holders(s.tasks) {
      TaskIsOk(s, t);
    }
  }
}
