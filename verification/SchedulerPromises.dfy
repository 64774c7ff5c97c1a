/** What a caller of the scheduler may rely on, said of its call and of the clock alone. */
module SchedulerPromises {
  import opened Scheduler
  import opened SchedulerRuns

  /** A command with a target that is no broadcast, or a broadcast without target. The rest is either
      against the assert of both ScheduleWork methods, or has nobody to call back and is deleted. */
  predicate Welcome(code: nat, target: bool) { if target then code > 1 else code < 1 }

  /** Step k schedules a command for `delay` later; 0 for one to be done at once. */
  predicate Schedules(step: Step, code: nat, target: bool, delay: nat) {
    step == Delay(code, target, delay) || (delay == 0 && step == Submit(code, target, false))
  }

  lemma {:induction false} OnlyGrows(now: int, steps: seq<Step>, k: nat)
    requires k <= |steps|
    ensures var early, s := Run(now, steps[..k]), Run(now, steps);
            early.issued <= s.issued && early.received <= s.received && early.now <= s.now
    decreases |steps|
  {
    if k == |steps| {
      assert steps[..k] == steps;
    } else {
      var init := steps[..|steps| - 1];
      OnlyGrows(now, init, k);
      assert init[..k] == steps[..k];
      NextGrows(Run(now, init), steps[|steps| - 1]);
    }
  }

  lemma NextGrows(s: State, step: Step)
    ensures var s' := Next(s, step); s.issued <= s'.issued && s.received <= s'.received && s.now <= s'.now
  {
  }

  lemma StepOf(now: int, steps: seq<Step>, k: nat)
    requires k < |steps|
    ensures Run(now, steps[..k + 1]) == Next(Run(now, steps[..k]), steps[k])
  {
    assert steps[..k + 1][..k] == steps[..k];
  }

  /** Exactly the welcome commands are accepted: each makes one command, with its code and target. A
      Submit that finds the mutex locked is refused. */
  lemma CommandsAreAccepted(now: int, steps: seq<Step>, k: nat)
    requires k < |steps| && (steps[k].Delay? || steps[k].Submit?)
    ensures var s, s' := Run(now, steps[..k]), Run(now, steps[..k + 1]);
            var code, target := steps[k].code, steps[k].target;
            if Welcome(code, target) && !(steps[k].Submit? && steps[k].locked) then
              && |s'.issued| == |s.issued| + 1 && s.issued <= s'.issued
              && s'.issued[|s.issued|].code == code && s'.issued[|s.issued|].target == target
            else s'.issued == s.issued
  {
    hide Run;
    StepOf(now, steps, k);
  }

  lemma DeadlineOf(now: int, steps: seq<Step>, k: nat, code: nat, target: bool, delay: nat)
    requires k < |steps| && Schedules(steps[k], code, target, delay) && Welcome(code, target)
    ensures var at, s := Run(now, steps[..k]), Run(now, steps);
            && |at.issued| < |s.issued|
            && var w := s.issued[|at.issued|];
            && w.code == code && w.target == target && w.notBefore == at.now + delay
            && (steps[k].Submit? ==> w in s.received)
  {
    hide Run;
    StepOf(now, steps, k);
    OnlyGrows(now, steps, k + 1);
    var at, after, s := Run(now, steps[..k]), Run(now, steps[..k + 1]), Run(now, steps);
    assert after.issued == s.issued[..|after.issued|];
    if steps[k].Submit? {
      var j := |at.received|;
      assert after.received[j] == s.received[j] == s.issued[|at.issued|];
    }
  }

  /** Whatever else happens: a command scheduled for `delay` later is executed at most once and never
      before that time; and when the threads have come to rest later than that, plus the time the
      timer thread took to fall asleep, it has been executed. One scheduled at once has been executed
      whenever the threads are at rest. */
  lemma DelaysAreKept(now: int, steps: seq<Step>, k: nat, code: nat, target: bool, delay: nat)
    requires k < |steps| && Schedules(steps[k], code, target, delay) && Welcome(code, target)
    ensures var at, s := Run(now, steps[..k]), Run(now, steps);
            && |at.issued| < |s.issued|
            && var w := s.issued[|at.issued|];
            && w.code == code && w.target == target
            && multiset(Works(s.executed))[w] <= 1
            && (forall i | 0 <= i < |s.executed| && s.executed[i].0 == w :: s.executed[i].1 >= at.now + delay)
            && (Idle(s) && (steps[k].Submit? || s.now >= at.now + delay + (s.timer.began - s.timer.read)) ==>
                  w in Works(s.executed))
  {
    hide Run, Works, Sorted, Conserved, Numbered;
    DeadlineOf(now, steps, k, code, target, delay);
    RunKeeps(now, steps);
    var at, s := Run(now, steps[..k]), Run(now, steps);
    var w := s.issued[|at.issued|];
    EachInOnePlace(now, steps, |at.issued|);
    if Idle(s) {
      AtRest(s);
      if !steps[k].Submit? { OnlyTimed(s, w); }
    }
  }

  lemma AtRest(s: State)
    requires Counted(s) && InOrder(s) && Idle(s)
    ensures Works(s.executed) == s.received
  {
    assert s.due == [];
  }

  /** Looking at the waiting commands, the timer thread hands over one that is due and none before it; if
      none is due it sleeps until the first of them is, or for an hour if nothing waits. */
  lemma TimerSleepsExactly(now: int, steps: seq<Step>)
    ensures var s, s' := Run(now, steps), Run(now, steps + [TimerLook]);
            s.timer.AtLoop? && !s.terminate ==>
              && (s'.timer.Handing? <==> exists w :: w in s.timed && w.notBefore <= s.now)
              && (s'.timer.Handing? ==> s'.timer.work in s.timed)
              && (s'.timer.Handing? ==> forall w | w in s.timed :: s'.timer.work.notBefore <= w.notBefore)
              && (s'.timer.Drowsy? <==> !s'.timer.Handing?)
              && (s'.timer.Drowsy? && s.timed == [] ==> s'.timer.s == 3600000)
              && (s'.timer.Drowsy? && s.timed != [] ==>
                    && (forall w | w in s.timed :: w.notBefore >= s.now + s'.timer.s)
                    && exists w :: w in s.timed && w.notBefore == s.now + s'.timer.s)
  {
    hide Run, Works, Conserved, Numbered;
    RunKeeps(now, steps);
    NextOf(now, steps, TimerLook);
    var s := Run(now, steps);
    if s.timed != [] { FirstIsLeast(s.timed); }
  }

  lemma NextOf(now: int, steps: seq<Step>, step: Step)
    ensures Run(now, steps + [step]) == Next(Run(now, steps), step)
  {
    assert (steps + [step])[..|steps|] == steps;
  }

  lemma FirstIsLeast(q: seq<Work>)
    requires Sorted(q) && q != []
    ensures q[0] in q && forall w | w in q :: q[0].notBefore <= w.notBefore
  {
    forall w | w in q ensures q[0].notBefore <= w.notBefore {
      var i :| 0 <= i < |q| && q[i] == w;
    }
  }

  // ---------------------------------------------------------------- interrupts

  /** A new timed command makes its caller interrupt the timer thread if and only if it is due before
      every other one. */
  lemma InterruptsAreNeeded(now: int, steps: seq<Step>, k: nat, at: nat)
    requires Enabled(Run(now, steps), Enter(k, at))
    ensures var s, s' := Run(now, steps), Run(now, steps + [Enter(k, at)]);
            var w := s.calls[k].work;
            && |s'.calls| == |s.calls| - (if forall q | q in s.timed :: w.notBefore < q.notBefore then 0 else 1)
            && (|s'.calls| == |s.calls| ==> s'.calls[k] == Raising)
            && multiset(s'.timed) == multiset(s.timed) + multiset{w} && Sorted(s'.timed)
  {
    hide Run, Works, Conserved, Numbered;
    RunKeeps(now, steps);
    NextOf(now, steps, Enter(k, at));
    var s := Run(now, steps);
    InsertedHas(s.timed, at, s.calls[k].work);
    if s.timed != [] { FirstIsLeast(s.timed); }
  }

  /** The step ends a sleep, or the falling asleep, other than by time. */
  predicate Cuts(s: State, step: Step) {
    (s.timer.Drowsy? || s.timer.Asleep?) && step != TimerWake(false) && Next(s, step).timer.AtLoop?
  }

  /** How many sleeps of the run were cut short. */
  function CutShort(now: int, steps: seq<Step>): nat
    decreases |steps|
  {
    if steps == [] then 0
    else
      var init, last := steps[..|steps| - 1], steps[|steps| - 1];
      CutShort(now, init) + if Cuts(Run(now, init), last) then 1 else 0
  }

  /** How many interrupts were raised. */
  function Raised(now: int, steps: seq<Step>): nat
    decreases |steps|
  {
    if steps == [] then 0
    else
      var init, last := steps[..|steps| - 1], steps[|steps| - 1];
      Raised(now, init) + if last.Raise? && Enabled(Run(now, init), last) then 1 else 0
  }

  /** An interrupt is used up by the sleep it ends: no more sleeps are cut short than interrupts were
      raised, not counting one that is still pending. */
  lemma {:induction false} InterruptsAreUsedUp(now: int, steps: seq<Step>)
    ensures CutShort(now, steps) + (if Run(now, steps).interrupt then 1 else 0) <= Raised(now, steps)
    decreases |steps|
  {
    hide Next;
    if steps != [] {
      var init, last := steps[..|steps| - 1], steps[|steps| - 1];
      InterruptsAreUsedUp(now, init);
      StepUsesUp(Run(now, init), last);
    }
  }

  lemma StepUsesUp(s: State, step: Step)
    ensures (if Cuts(s, step) then 1 else 0) + (if Next(s, step).interrupt then 1 else 0)
         <= (if s.interrupt then 1 else 0) + if step.Raise? && Enabled(s, step) then 1 else 0
  {
  }

  /** No thread can go on, except that the timer thread may be gone. */
  ghost predicate AllStill(s: State) {
    forall step: Step | Enabled(s, step) :: step.Tick? || step.Submit? || step.Delay? || step.Terminate?
  }

  predicate Ending(s: State) {
    && (s.timer.Gone? ==> s.terminate)
    && (s.terminate && (s.timer.Drowsy? || s.timer.Asleep?) ==> s.interrupt || Raising in s.calls)
  }

  lemma StepEnds(s: State, step: Step)
    requires Ending(s)
    ensures Ending(Next(s, step)) && (Next(s, step).terminate <==> s.terminate || step.Terminate?)
  {
    if Enabled(s, step) {
      if step.Enter? { RaisingStays(s.calls, step.k); }
      if step.Terminate? || step.Delay? { MoreCalls(s.calls, Next(s, step).calls); }
    }
  }

  lemma MoreCalls(a: seq<Call>, b: seq<Call>)
    requires a <= b
    ensures forall c :: c in a ==> c in b
    ensures forall i | 0 <= i < |b| :: b[i] in b
  {
  }

  lemma {:induction false} RunEnds(now: int, steps: seq<Step>)
    ensures Ending(Run(now, steps)) && (Run(now, steps).terminate <==> Terminate in steps)
    decreases |steps|
  {
    hide Next, Ending;
    if steps == [] {
      NotEnding(now);
    } else {
      var init, last := steps[..|steps| - 1], steps[|steps| - 1];
      RunEnds(now, init);
      StepEnds(Run(now, init), last);
      assert steps == init + [last];
    }
  }

  lemma NotEnding(now: int)
    ensures Ending(Initial(now))
  {
  }

  /** The timer thread ends exactly on request: it is gone once termination was requested and no thread
      can go on, and never before. */
  lemma TerminationIsSeen(now: int, steps: seq<Step>)
    ensures var s := Run(now, steps);
            && (Terminate !in steps ==> !s.timer.Gone?)
            && (Terminate in steps && AllStill(s) ==> s.timer.Gone?)
  {
    hide Run;
    RunEnds(now, steps);
    RunKeeps(now, steps);
    var s := Run(now, steps);
    if Terminate in steps && AllStill(s) { StillIsGone(s); }
  }

  lemma StillIsGone(s: State)
    requires Inv(s) && Ending(s) && s.terminate && AllStill(s)
    ensures s.timer.Gone?
  {
    hide Conserved, Numbered, InOrder, Awake, NotEarly;
    assert !Enabled(s, TimerLook) && !Enabled(s, TimerHand) && !Enabled(s, TimerPost) && !Enabled(s, TimerSleep);
    assert !Enabled(s, TimerWake(true));
    if Raising in s.calls { SomeoneRaises(s); }
  }

  lemma SomeoneRaises(s: State)
    requires Raising in s.calls
    ensures !AllStill(s)
  {
    var k :| 0 <= k < |s.calls| && s.calls[k] == Raising;
    assert Enabled(s, Raise(k));
  }
}
