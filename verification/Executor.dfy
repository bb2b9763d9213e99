/** `UvExecutor` (src/uv_executor.cpp): the queue drained by a coalescing wakeup, and
    the one-shot timer operation, as machines of atomic steps. */
module Executor {
  import opened Text

  type Thread = nat
  type Func = nat

  // --------------------------------------------------------------- the queue

  /** Where the loop thread is in `on_async`. */
  datatype LoopPc =
    | Idle
    | Woken                        // the wakeup is consumed, the queue not yet swapped out
    | Swapped(local: seq<Func>)    // swapped out, `pending` not yet lowered
    | Running(local: seq<Func>)    // `local` is still to be run

  /** `wake` is libuv's coalesced wakeup; `senders` have pushed and not yet sent one.
      `accepted` and `ran` record every function in order. */
  datatype State = State(q: seq<Func>, pending: int, wake: bool, senders: set<Thread>, loop: LoopPc,
                         accepted: seq<Func>, ran: seq<Func>)

  datatype Step =
    | Push(thread: Thread, f: Func)
    | Send(thread: Thread)
    | Wake
    | Swap
    | Subtract
    | RunOne
    | Finish

  const INIT := State([], 0, false, {}, Idle, [], [])

  predicate Enabled(s: State, step: Step) {
    match step
    case Push(thread, _) => thread !in s.senders
    case Send(thread) => thread in s.senders
    case Wake => s.wake && s.loop == Idle
    case Swap => s.loop == Woken
    case Subtract => s.loop.Swapped?
    case RunOne => s.loop.Running? && s.loop.local != []
    case Finish => s.loop.Running? && s.loop.local == []
  }

  function Apply(s: State, step: Step): State
    requires Enabled(s, step)
  {
    match step
    case Push(thread, f) =>
      s.(q := s.q + [f], pending := s.pending + 1, senders := s.senders + {thread}, accepted := s.accepted + [f])
    case Send(thread) => s.(wake := true, senders := s.senders - {thread})
    case Wake => s.(wake := false, loop := Woken)
    case Swap => s.(q := [], loop := Swapped(s.q))
    case Subtract => s.(pending := s.pending - |s.loop.local|, loop := Running(s.loop.local))
    case RunOne => s.(ran := s.ran + [s.loop.local[0]], loop := Running(s.loop.local[1..]))
    case Finish => s.(loop := Idle)
  }

  ghost predicate Runs(from: State, steps: seq<Step>, to: State)
    decreases |steps|
  {
    if steps == [] then from == to
    else Enabled(from, steps[0]) && Runs(Apply(from, steps[0]), steps[1..], to)
  }

  function InLoop(s: State): seq<Func> {
    if s.loop.Swapped? || s.loop.Running? then s.loop.local else []
  }

  ghost predicate Inv(s: State) {
    && s.accepted == s.ran + (InLoop(s) + s.q)
    && s.pending == |s.q| + (if s.loop.Swapped? then |s.loop.local| else 0)
    && (s.q != [] ==> s.wake || s.senders != {} || s.loop == Woken)
  }

  lemma StepKeeps(s: State, step: Step)
    requires Inv(s) && Enabled(s, step)
    ensures Inv(Apply(s, step))
  {
    match step {
      case Push(thread, f) =>
        assert thread in Apply(s, step).senders;
        Assoc(InLoop(s), s.q, [f]);
        Assoc(s.ran, InLoop(s) + s.q, [f]);
      case Swap =>
        assert [] + s.q == s.q + [];
      case RunOne =>
        var local := s.loop.local;
        assert local == [local[0]] + local[1..];
        Assoc([local[0]], local[1..], s.q);
        Assoc(s.ran, [local[0]], local[1..] + s.q);
      case _ =>
    }
  }

  lemma {:induction false} RunKeeps(from: State, steps: seq<Step>, to: State)
    requires Inv(from) && Runs(from, steps, to)
    ensures Inv(to)
    decreases |steps|
  {
    hide Inv, Apply;
    if steps != [] {
      StepKeeps(from, steps[0]);
      RunKeeps(Apply(from, steps[0]), steps[1..], to);
    }
  }

  lemma FromInit(steps: seq<Step>, s: State)
    requires Runs(INIT, steps, s)
    ensures Inv(s)
  {
    RunKeeps(INIT, steps, s);
  }

  /** In every run, functions run in the order they were accepted and none runs twice. */
  lemma RunsInOrder(steps: seq<Step>, s: State)
    requires Runs(INIT, steps, s)
    ensures s.ran <= s.accepted && s.accepted == s.ran + (InLoop(s) + s.q)
  {
    FromInit(steps, s);
  }

  /** A non-empty queue has a wakeup outstanding or about to be sent. */
  lemma WakeupOutstanding(steps: seq<Step>, s: State)
    requires Runs(INIT, steps, s) && s.q != []
    ensures s.wake || s.senders != {} || s.loop == Woken
  {
    FromInit(steps, s);
  }

  /** The pending counter is what is queued plus what is swapped out and not yet
      subtracted; it never goes below zero. */
  lemma PendingCounts(steps: seq<Step>, s: State)
    requires Runs(INIT, steps, s)
    ensures s.pending == |s.q| + (if s.loop.Swapped? then |s.loop.local| else 0) && s.pending >= 0
  {
    FromInit(steps, s);
  }

  /** No accepted function is stranded: at rest, all of them have run. */
  lemma NothingStranded(steps: seq<Step>, s: State)
    requires Runs(INIT, steps, s) && s.senders == {} && !s.wake && s.loop == Idle
    ensures s.q == [] && s.ran == s.accepted && s.pending == 0
  {
    FromInit(steps, s);
    assert s.ran + ([] + []) == s.ran;
  }
}

/** `TimerOp`, local to `UvExecutor::schedule(func, duration, …)`. */
module TimerOp {

  /** Where a thread is in `complete_on_loop`. */
  datatype Completing =
    | Away
    | AtExchange
    | AtMove              // won the exchange on `done`
    | AtCall(f: bool)     // moved the callback out; `f` says whether there was one

  /** Where the scheduling caller is. */
  datatype Caller = New | Armed | Started | Rejected | Direct

  /** `done`, `timerStarted` and `func` are the operation's fields.  `startQueued`,
      `cancelsQueued` and `directQueued` are functions accepted by the executor and not
      yet run on the loop.  `runs` and `closes` count the callback and `uv_close`. */
  datatype State = State(done: bool, timerStarted: bool, func: bool, caller: Caller,
                         startQueued: bool, cancelsQueued: nat, directQueued: bool, directLost: bool,
                         expired: bool, loop: Completing, outside: Completing, runs: nat, closes: nat)

  datatype Step =
    | Emplace                       // no slot, or the cancellation handler is installed
    | AlreadyCancelled(accepted: bool)
    | StartOnLoop
    | StartEnqueued
    | StartRejected
    | RequestCancel(accepted: bool)
    | RunStart
    | RunDirect
    | RunCancel
    | Expire
    | Exchange(onLoop: bool)
    | Move(onLoop: bool)
    | Call(onLoop: bool)

  const INIT := State(false, false, true, New, false, 0, false, false, false, Away, Away, 0, 0)

  function Actor(s: State, onLoop: bool): Completing {
    if onLoop then s.loop else s.outside
  }

  function WithActor(s: State, onLoop: bool, c: Completing): State {
    if onLoop then s.(loop := c) else s.(outside := c)
  }

  predicate Enabled(s: State, step: Step) {
    match step
    case Emplace => s.caller == New
    case AlreadyCancelled(_) => s.caller == New
    case StartOnLoop => s.caller == Armed && s.loop == Away
    case StartEnqueued => s.caller == Armed
    case StartRejected => s.caller == Armed
    case RequestCancel(_) => s.caller != New && s.caller != Direct
    case RunStart => s.startQueued && s.loop == Away
    case RunDirect => s.directQueued && s.loop == Away
    case RunCancel => s.cancelsQueued > 0 && s.loop == Away
    case Expire => s.timerStarted && !s.expired && s.closes == 0 && s.loop == Away
    case Exchange(onLoop) => Actor(s, onLoop) == AtExchange
    case Move(onLoop) => Actor(s, onLoop) == AtMove
    case Call(onLoop) => Actor(s, onLoop).AtCall?
  }

  function Apply(s: State, step: Step): State
    requires Enabled(s, step)
  {
    match step
    case Emplace => s.(caller := Armed)
    case AlreadyCancelled(accepted) =>
      s.(caller := Direct, func := false, directQueued := accepted, directLost := !accepted)
    case StartOnLoop => s.(caller := Started, timerStarted := s.timerStarted || !s.done)
    case StartEnqueued => s.(caller := Started, startQueued := true)
    case StartRejected => s.(caller := Rejected, outside := AtExchange)
    case RequestCancel(accepted) => s.(cancelsQueued := s.cancelsQueued + (if accepted then 1 else 0))
    case RunStart => s.(startQueued := false, timerStarted := s.timerStarted || !s.done)
    case RunDirect => s.(directQueued := false, runs := s.runs + 1)
    case RunCancel => s.(cancelsQueued := s.cancelsQueued - 1, loop := AtExchange)
    case Expire => s.(expired := true, loop := AtExchange)
    case Exchange(onLoop) =>
      if s.done then WithActor(s, onLoop, Away) else WithActor(s, onLoop, AtMove).(done := true)
    case Move(onLoop) =>
      WithActor(s, onLoop, AtCall(s.func)).(func := false, closes := s.closes + (if s.timerStarted then 1 else 0))
    case Call(onLoop) =>
      WithActor(s, onLoop, Away).(runs := s.runs + (if Actor(s, onLoop).f then 1 else 0))
  }

  ghost predicate Runs(from: State, steps: seq<Step>, to: State)
    decreases |steps|
  {
    if steps == [] then from == to
    else Enabled(from, steps[0]) && Runs(Apply(from, steps[0]), steps[1..], to)
  }

  function One(b: bool): nat {
    if b then 1 else 0
  }

  /** The callback is in exactly one place: the operation, a thread about to call it, the
      executor's queue, or used up. */
  function Callbacks(s: State): nat {
    One(s.func) + One(s.loop == AtCall(true)) + One(s.outside == AtCall(true))
    + One(s.directQueued) + One(s.directLost) + s.runs
  }

  /** The thread that won the exchange and has not got past closing the timer. */
  predicate Closing(s: State) {
    s.loop == AtMove || s.outside == AtMove
  }

  predicate Inv(s: State) {
    && Callbacks(s) == 1
    && (s.func <==> s.caller != Direct && (!s.done || Closing(s)))
    && !(s.loop == AtMove && s.outside == AtMove) && (Closing(s) ==> s.done)
    && s.closes == One(s.timerStarted && s.done && !Closing(s))
    && (s.timerStarted || s.startQueued ==> s.caller == Started)
    && (s.timerStarted && s.startQueued ==> false)
    && (s.outside != Away ==> s.caller == Rejected)
    && (s.caller == Direct ==> !s.done && s.loop == Away && s.cancelsQueued == 0)
    && (s.caller == New ==> !s.done && s.loop == Away && s.cancelsQueued == 0)
    && ((s.directQueued || s.directLost) ==> s.caller == Direct)
    && (s.loop == AtCall(true) || s.outside == AtCall(true) ==> s.done)
    && (s.caller == Armed ==> !s.timerStarted && !s.startQueued && s.outside == Away)
  }

  predicate CallerStep(step: Step) {
    step.Emplace? || step.AlreadyCancelled? || step.StartOnLoop? || step.StartEnqueued? || step.StartRejected?
  }

  predicate CompletingStep(step: Step) {
    step.Exchange? || step.Move? || step.Call?
  }

  lemma CallerStepKeeps(s: State, step: Step)
    requires Inv(s) && Enabled(s, step) && CallerStep(step)
    ensures Inv(Apply(s, step))
  {
  }

  lemma LoopStepKeeps(s: State, step: Step)
    requires Inv(s) && Enabled(s, step) && !CallerStep(step) && !CompletingStep(step)
    ensures Inv(Apply(s, step))
  {
  }

  lemma ExchangeKeeps(s: State, onLoop: bool)
    requires Inv(s) && Enabled(s, Exchange(onLoop))
    ensures Inv(Apply(s, Exchange(onLoop)))
  {
  }

  lemma MoveKeeps(s: State, onLoop: bool)
    requires Inv(s) && Enabled(s, Move(onLoop))
    ensures Inv(Apply(s, Move(onLoop)))
  {
  }

  lemma CallKeeps(s: State, onLoop: bool)
    requires Inv(s) && Enabled(s, Call(onLoop))
    ensures Inv(Apply(s, Call(onLoop)))
  {
  }

  lemma StepKeeps(s: State, step: Step)
    requires Inv(s) && Enabled(s, step)
    ensures Inv(Apply(s, step))
  {
    hide Inv, Apply;
    match step {
      case Exchange(onLoop) => ExchangeKeeps(s, onLoop);
      case Move(onLoop) => MoveKeeps(s, onLoop);
      case Call(onLoop) => CallKeeps(s, onLoop);
      case _ =>
        if CallerStep(step) {
          CallerStepKeeps(s, step);
        } else {
          LoopStepKeeps(s, step);
        }
    }
  }

  lemma {:induction false} RunKeeps(from: State, steps: seq<Step>, to: State)
    requires Inv(from) && Runs(from, steps, to)
    ensures Inv(to)
    decreases |steps|
  {
    hide Inv, Apply;
    if steps != [] {
      StepKeeps(from, steps[0]);
      RunKeeps(Apply(from, steps[0]), steps[1..], to);
    }
  }

  /** In every order of start, expiry, cancellation and rejection: the callback runs at
      most once, and the timer handle is closed at most once and only if it was started. */
  lemma AtMostOnce(steps: seq<Step>, s: State)
    requires Runs(INIT, steps, s)
    ensures s.runs <= 1 && s.closes <= 1 && (s.closes == 1 ==> s.timerStarted && s.done)
  {
    RunKeeps(INIT, steps, s);
  }

  /** Once a completing event has been processed, the callback has run exactly once, and
      a started timer has been closed exactly once. */
  lemma ExactlyOnceWhenDone(steps: seq<Step>, s: State)
    requires Runs(INIT, steps, s) && s.done && s.loop == Away && s.outside == Away
    ensures s.runs == 1 && s.closes == One(s.timerStarted)
  {
    RunKeeps(INIT, steps, s);
  }

  /** Cancelled before it was scheduled: the callback runs once the executor gets to it,
      and never if the executor refused it; no timer is ever started. */
  lemma DirectPath(steps: seq<Step>, s: State)
    requires Runs(INIT, steps, s) && s.caller == Direct
    ensures !s.timerStarted && s.closes == 0 && s.runs == One(!s.directQueued && !s.directLost)
  {
    RunKeeps(INIT, steps, s);
  }
}
