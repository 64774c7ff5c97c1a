/** The work scheduler and its timer thread (CWorkScheduler and CTimedWork): every step is one
    lock-delimited piece of some thread, and the threads interleave freely. */
module Scheduler {
  /** A command with the earliest time at which it may run. */
  datatype Work = Work(id: nat, code: nat, target: bool, notBefore: int)

  const BROADCAST_MAX: nat := 1

  /** One hour, in milliseconds. */
  const HOUR: int := 3600 * 1000

  /** The assert in both ScheduleWork methods. */
  predicate MaySchedule(code: nat, target: bool) { !(code <= BROADCAST_MAX && target) }

  /** Nobody to call back: the command is deleted at once. */
  predicate FireAndForget(code: nat, target: bool) { code >= BROADCAST_MAX && !target }

  /** A thread inside CTimedWork::ScheduleWork: before its critical section, or behind it and
      about to interrupt the timer thread. A terminating thread raises the same way. */
  datatype Call = Entering(work: Work) | Raising

  /** The timer thread: at its loop head; handing a due command to the scheduler and posting the
      semaphore; about to sleep s after having read the clock; sleeping since; or gone. */
  datatype Timer =
    | AtLoop
    | Handing(work: Work)
    | Posting
    | Drowsy(read: int, s: int)
    | Asleep(read: int, began: int, s: int)
    | Gone

  datatype State = State(
    now: int,
    issued: seq<Work>,
    calls: seq<Call>,
    timed: seq<Work>,
    interrupt: bool,
    terminate: bool,
    timer: Timer,
    due: seq<Work>,
    sem: nat,
    posting: nat,
    taking: nat,
    received: seq<Work>,
    executed: seq<(Work, int)>)

  function Initial(now: int): State {
    State(now, [], [], [], false, false, AtLoop, [], 0, 0, 0, [], [])
  }

  datatype Step =
    | Tick(d: nat)
    | Submit(code: nat, target: bool, locked: bool)
    | Post
    | Delay(code: nat, target: bool, delay: nat)
    | Enter(k: nat, at: nat)
    | Raise(k: nat)
    | Terminate
    | TimerLook
    | TimerHand
    | TimerPost
    | TimerSleep
    | TimerWake(interrupted: bool)
    | Wait
    | Take

  // ---------------------------------------------------------------- the timed commands

  predicate Sorted(q: seq<Work>) { forall i, j | 0 <= i < j < |q| :: q[i].notBefore <= q[j].notBefore }

  function Inserted(q: seq<Work>, at: nat, w: Work): seq<Work>
    requires at <= |q|
  {
    q[..at] + [w] + q[at..]
  }

  /** The queue is empty, or its first deadline lies behind the new one. */
  predicate NeedInterrupt(q: seq<Work>, deadline: int) { q == [] || q[0].notBefore > deadline }

  /** What the timer thread decides in its critical section. */
  datatype Decision = HandOver | Sleep(s: int)

  function Decide(q: seq<Work>, now: int): Decision {
    if q == [] then Sleep(HOUR)
    else if q[0].notBefore > now then Sleep(q[0].notBefore - now)
    else HandOver
  }

  // ---------------------------------------------------------------- steps

  function Without<T>(s: seq<T>, k: nat): seq<T>
    requires k < |s|
  {
    s[..k] + s[k + 1..]
  }

  predicate Enabled(s: State, step: Step) {
    match step
    case Tick(_) => true
    case Submit(code, target, _) => MaySchedule(code, target)
    case Post => s.posting > 0
    case Delay(code, target, _) => MaySchedule(code, target)
    case Enter(k, at) =>
      && k < |s.calls| && s.calls[k].Entering? && at <= |s.timed|
      && Sorted(Inserted(s.timed, at, s.calls[k].work))
    case Raise(k) => k < |s.calls| && s.calls[k].Raising?
    case Terminate => true
    case TimerLook => s.timer.AtLoop?
    case TimerHand => s.timer.Handing?
    case TimerPost => s.timer.Posting?
    case TimerSleep => s.timer.Drowsy?
    case TimerWake(interrupted) =>
      s.timer.Asleep? && if interrupted then s.interrupt else s.now >= s.timer.began + s.timer.s
    case Wait => s.sem > 0
    case Take => s.taking > 0 && s.due != []
  }

  function Apply(s: State, step: Step): State
    requires Enabled(s, step)
  {
    match step
    case Tick(d) => s.(now := s.now + d)
    case Submit(code, target, locked) =>
      if FireAndForget(code, target) || locked then s
      else
        var w := Work(|s.issued|, code, target, s.now);
        s.(issued := s.issued + [w], due := s.due + [w], received := s.received + [w], posting := s.posting + 1)
    case Post => s.(posting := s.posting - 1, sem := s.sem + 1)
    case Delay(code, target, delay) =>
      if FireAndForget(code, target) then s
      else
        var w := Work(|s.issued|, code, target, s.now + delay);
        s.(issued := s.issued + [w], calls := s.calls + [Entering(w)])
    case Enter(k, at) =>
      var w := s.calls[k].work;
      s.(timed := Inserted(s.timed, at, w),
         calls := if NeedInterrupt(s.timed, w.notBefore) then s.calls[k := Raising] else Without(s.calls, k))
    case Raise(k) => s.(calls := Without(s.calls, k), interrupt := true)
    case Terminate => s.(terminate := true, calls := s.calls + [Raising])
    case TimerLook =>
      if s.terminate then s.(timer := Gone)
      else
        (match Decide(s.timed, s.now)
         case HandOver => s.(timer := Handing(s.timed[0]), timed := s.timed[1..])
         case Sleep(d) => s.(timer := Drowsy(s.now, d)))
    case TimerHand =>
      var w := s.timer.work;
      if FireAndForget(w.code, w.target) then s.(timer := AtLoop)
      else s.(timer := Posting, due := s.due + [w], received := s.received + [w])
    case TimerPost => s.(timer := AtLoop, sem := s.sem + 1)
    case TimerSleep =>
      if s.interrupt then s.(timer := AtLoop, interrupt := false)
      else s.(timer := Asleep(s.timer.read, s.now, s.timer.s))
    case TimerWake(interrupted) => s.(timer := AtLoop, interrupt := !interrupted && s.interrupt)
    case Wait => s.(sem := s.sem - 1, taking := s.taking + 1)
    case Take => s.(taking := s.taking - 1, due := s.due[1..], executed := s.executed + [(s.due[0], s.now)])
  }

  function Next(s: State, step: Step): State {
    if Enabled(s, step) then Apply(s, step) else s
  }

  function Run(now: int, steps: seq<Step>): State
    decreases |steps|
  {
    if steps == [] then Initial(now) else Next(Run(now, steps[..|steps| - 1]), steps[|steps| - 1])
  }
}
