/** What every run of the scheduler and its timer thread keeps. */
module SchedulerRuns {
  import opened Scheduler

  // ---------------------------------------------------------------- invariants

  /** Somebody is going to interrupt, or has done so. */
  predicate WakeUpComing(s: State) { s.interrupt || Raising in s.calls }

  /** The time the timer thread allows itself to sleep ends no later than the first deadline,
      counted from when it read the clock. */
  predicate InTime(s: State, read: int, d: int) { s.timed != [] ==> read + d <= s.timed[0].notBefore }

  /** No wake-up is lost. */
  predicate Awake(s: State) {
    && (s.timer.Drowsy? ==> s.timer.read <= s.now && (InTime(s, s.timer.read, s.timer.s) || WakeUpComing(s)))
    && (s.timer.Asleep? ==>
          && s.timer.read <= s.timer.began <= s.now
          && (InTime(s, s.timer.read, s.timer.s) || WakeUpComing(s)))
  }

  /** One unit of the semaphore, or one promise of it, for every command that is due. */
  predicate Counted(s: State) {
    s.sem + s.posting + (if s.timer.Posting? then 1 else 0) + s.taking == |s.due|
  }

  function Works(done: seq<(Work, int)>): (ws: seq<Work>)
    ensures |ws| == |done| && forall i | 0 <= i < |ws| :: ws[i] == done[i].0
  {
    seq(|done|, i requires 0 <= i < |done| => done[i].0)
  }

  /** First come, first served. */
  predicate InOrder(s: State) { s.received == Works(s.executed) + s.due }

  function Waiting(calls: seq<Call>): seq<Work> {
    if calls == [] then []
    else Waiting(calls[..|calls| - 1]) + if calls[|calls| - 1].Entering? then [calls[|calls| - 1].work] else []
  }

  function InHand(t: Timer): seq<Work> { if t.Handing? then [t.work] else [] }

  function Everywhere(s: State): multiset<Work> {
    multiset(Waiting(s.calls)) + multiset(s.timed) + multiset(InHand(s.timer)) + multiset(s.received)
  }

  /** Every accepted command is in one place: on its way in, among the timed ones, in the hand of
      the timer thread, or received as due. */
  predicate Conserved(s: State) { Everywhere(s) == multiset(s.issued) }

  predicate Numbered(s: State) {
    forall k | 0 <= k < |s.issued| :: s.issued[k].id == k && !FireAndForget(s.issued[k].code, s.issued[k].target)
  }

  /** Nothing is due or done before its time. */
  predicate NotEarly(s: State) {
    && (forall i | 0 <= i < |s.due| :: s.due[i].notBefore <= s.now)
    && (s.timer.Handing? ==> s.timer.work.notBefore <= s.now)
    && (forall i | 0 <= i < |s.executed| :: s.executed[i].0.notBefore <= s.executed[i].1)
  }

  predicate Inv(s: State) {
    && Sorted(s.timed) && Awake(s) && Counted(s) && InOrder(s) && Conserved(s) && Numbered(s) && NotEarly(s)
    && (s.timer.Gone? ==> s.terminate)
  }

  // ---------------------------------------------------------------- sequences

  lemma {:induction false} WaitingAppend(a: seq<Call>, b: seq<Call>)
    ensures multiset(Waiting(a + b)) == multiset(Waiting(a)) + multiset(Waiting(b))
  {
    if b == [] {
      assert a + b == a;
    } else {
      assert (a + b)[..|a + b| - 1] == a + b[..|b| - 1];
      WaitingAppend(a, b[..|b| - 1]);
    }
  }

  lemma WaitingOne(c: Call)
    ensures Waiting([c]) == if c.Entering? then [c.work] else []
  {
    assert [c][..0] == [];
  }

  /** What the calls hold without call k. */
  lemma WaitingWithout(calls: seq<Call>, k: nat)
    requires k < |calls|
    ensures multiset(Waiting(calls)) == multiset(Waiting(Without(calls, k))) + multiset(Waiting([calls[k]]))
    ensures multiset(Waiting(calls[k := Raising])) == multiset(Waiting(Without(calls, k)))
  {
    hide Waiting;
    var a, b := calls[..k], calls[k + 1..];
    assert calls == a + ([calls[k]] + b) && calls[k := Raising] == a + ([Raising] + b);
    WaitingAppend(a, [calls[k]] + b);
    WaitingAppend([calls[k]], b);
    WaitingAppend(a, [Raising] + b);
    WaitingAppend([Raising], b);
    WaitingAppend(a, b);
    WaitingOne(Raising);
  }

  lemma InsertedHas(q: seq<Work>, at: nat, w: Work)
    requires at <= |q|
    ensures multiset(Inserted(q, at, w)) == multiset(q) + multiset{w}
  {
    assert q == q[..at] + q[at..];
  }

  lemma RaisingStays(calls: seq<Call>, k: nat)
    requires k < |calls| && calls[k].Entering?
    ensures Raising in calls ==> Raising in Without(calls, k) && Raising in calls[k := Raising]
    ensures Raising in calls[k := Raising]
  {
    assert calls[k := Raising][k] == Raising;
    if Raising in calls {
      var i :| 0 <= i < |calls| && calls[i] == Raising;
      assert calls == calls[..k] + [calls[k]] + calls[k + 1..];
      assert Without(calls, k)[if i < k then i else i - 1] == Raising;
    }
  }

  // ---------------------------------------------------------------- every step keeps the invariant

  predicate Timing(s: State) { Sorted(s.timed) && Awake(s) && NotEarly(s) && (s.timer.Gone? ==> s.terminate) }

  lemma EnterKeepsTiming(s: State, k: nat, at: nat)
    requires Timing(s) && Enabled(s, Enter(k, at))
    ensures Timing(Apply(s, Enter(k, at)))
  {
    var w := s.calls[k].work;
    RaisingStays(s.calls, k);
    var q := Inserted(s.timed, at, w);
    if s.timed != [] && !NeedInterrupt(s.timed, w.notBefore) {
      assert q[0].notBefore == s.timed[0].notBefore by {
        assert q[0] == if at == 0 then w else s.timed[0];
        assert at == 0 ==> q[1] == s.timed[0];
      }
    }
  }

  lemma StepKeepsTiming(s: State, step: Step)
    requires Timing(s) && Enabled(s, step)
    ensures Timing(Apply(s, step))
  {
    hide Sorted;
    match step
    case Enter(k, at) => EnterKeepsTiming(s, k, at);
    case Delay(_, _, _) => CallsGrow(s, step);
    case Terminate => CallsGrow(s, step);
    case TimerLook => LookKeepsTiming(s);
    case _ =>
  }

  lemma LookKeepsTiming(s: State)
    requires Timing(s) && s.timer.AtLoop?
    ensures Timing(Apply(s, TimerLook))
  {
  }

  lemma CallsGrow(s: State, step: Step)
    requires Timing(s) && Enabled(s, step) && (step.Delay? || step.Terminate?)
    ensures Timing(Apply(s, step))
  {
    assert forall c :: c in s.calls ==> c in Apply(s, step).calls;
  }

  lemma StepKeepsOrder(s: State, step: Step)
    requires Counted(s) && InOrder(s) && Enabled(s, step)
    ensures Counted(Apply(s, step)) && InOrder(Apply(s, step))
  {
    var s' := Apply(s, step);
    if step.Take? {
      assert Works(s'.executed) == Works(s.executed) + [s.due[0]];
      assert s.due == [s.due[0]] + s.due[1..];
    }
  }

  lemma StepKeepsNumbers(s: State, step: Step)
    requires Numbered(s) && Enabled(s, step)
    ensures Numbered(Apply(s, step))
  {
  }

  /** The command in the hand of the timer thread was accepted, so it is not deleted. */
  lemma HandedIsKept(s: State)
    requires Conserved(s) && Numbered(s) && s.timer.Handing?
    ensures !FireAndForget(s.timer.work.code, s.timer.work.target)
  {
    assert s.timer.work in multiset(s.issued);
    var k :| 0 <= k < |s.issued| && s.issued[k] == s.timer.work;
  }

  /** Sums of places: a new command, and a command that moves on. */
  lemma Sums(a: multiset<Work>, b: multiset<Work>, c: multiset<Work>, d: multiset<Work>, m: multiset<Work>)
    ensures (a + m) + b + c + d == a + b + c + d + m
    ensures a + (b + m) + c + d == a + b + c + d + m
    ensures a + b + (c + m) + d == a + b + c + d + m
    ensures a + b + c + (d + m) == a + b + c + d + m
  {
  }

  lemma SubmitConserves(s: State, step: Step)
    requires Conserved(s) && Enabled(s, step) && step.Submit?
    ensures Conserved(Apply(s, step))
  {
    hide Waiting, InHand;
    var w := Work(|s.issued|, step.code, step.target, s.now);
    Sums(multiset(Waiting(s.calls)), multiset(s.timed), multiset(InHand(s.timer)), multiset(s.received), multiset{w});
    assert multiset(s.received + [w]) == multiset(s.received) + multiset{w};
    assert multiset(s.issued + [w]) == multiset(s.issued) + multiset{w};
  }

  lemma DelayConserves(s: State, step: Step)
    requires Conserved(s) && Enabled(s, step) && step.Delay?
    ensures Conserved(Apply(s, step))
  {
    hide Waiting, InHand;
    var w := Work(|s.issued|, step.code, step.target, s.now + step.delay);
    Sums(multiset(Waiting(s.calls)), multiset(s.timed), multiset(InHand(s.timer)), multiset(s.received), multiset{w});
    WaitingAppend(s.calls, [Entering(w)]);
    WaitingOne(Entering(w));
    assert multiset(s.issued + [w]) == multiset(s.issued) + multiset{w};
  }

  lemma EnterConserves(s: State, step: Step)
    requires Conserved(s) && Enabled(s, step) && step.Enter?
    ensures Conserved(Apply(s, step))
  {
    hide Waiting, InHand, Inserted, Without;
    var w := s.calls[step.k].work;
    var rest := multiset(Waiting(Without(s.calls, step.k)));
    WaitingWithout(s.calls, step.k);
    WaitingOne(s.calls[step.k]);
    InsertedHas(s.timed, step.at, w);
    Sums(rest, multiset(s.timed), multiset(InHand(s.timer)), multiset(s.received), multiset{w});
  }

  lemma RaiseConserves(s: State, step: Step)
    requires Conserved(s) && Enabled(s, step) && (step.Raise? || step.Terminate?)
    ensures Conserved(Apply(s, step))
  {
    hide Waiting, InHand, Without;
    if step.Raise? {
      WaitingWithout(s.calls, step.k);
      WaitingOne(s.calls[step.k]);
    } else {
      WaitingAppend(s.calls, [Raising]);
      WaitingOne(Raising);
    }
  }

  lemma LookConserves(s: State, step: Step)
    requires Conserved(s) && Enabled(s, step) && step.TimerLook?
    ensures Conserved(Apply(s, step))
  {
    hide Waiting;
    if Apply(s, step).timer.Handing? {
      var w := s.timed[0];
      assert s.timed == [w] + s.timed[1..];
      Sums(multiset(Waiting(s.calls)), multiset(s.timed[1..]), multiset{}, multiset(s.received), multiset{w});
    }
  }

  lemma HandConserves(s: State, step: Step)
    requires Conserved(s) && Enabled(s, step) && step.TimerHand?
    requires !FireAndForget(s.timer.work.code, s.timer.work.target)
    ensures Conserved(Apply(s, step))
  {
    hide Waiting;
    var w := s.timer.work;
    assert multiset(s.received + [w]) == multiset(s.received) + multiset{w};
    Sums(multiset(Waiting(s.calls)), multiset(s.timed), multiset{}, multiset(s.received), multiset{w});
  }

  lemma RestConserves(s: State, step: Step)
    requires Conserved(s) && Enabled(s, step)
    requires step.Tick? || step.Post? || step.TimerPost? || step.TimerSleep? || step.TimerWake? || step.Wait?
             || step.Take?
    ensures Conserved(Apply(s, step))
  {
    hide Waiting, Conserved;
    var s' := Apply(s, step);
    assert InHand(s'.timer) == InHand(s.timer);
    SamePlaces(s, s');
  }

  lemma SamePlaces(s: State, s': State)
    requires Conserved(s) && s'.calls == s.calls && s'.timed == s.timed && s'.received == s.received
    requires InHand(s'.timer) == InHand(s.timer) && s'.issued == s.issued
    ensures Conserved(s')
  {
    hide Waiting, InHand;
  }

  lemma Handed(s: State, step: Step)
    requires Enabled(s, step) && step.TimerHand?
    ensures s.timer.Handing?
  {
  }

  lemma StepConserves(s: State, step: Step)
    requires Conserved(s) && Numbered(s) && Enabled(s, step)
    ensures Conserved(Apply(s, step))
  {
    hide Apply, Enabled, Conserved, Numbered;
    match step {
      case Submit(_, _, _) => SubmitConserves(s, step);
      case Delay(_, _, _) => DelayConserves(s, step);
      case Enter(_, _) => EnterConserves(s, step);
      case Raise(_) => RaiseConserves(s, step);
      case Terminate => RaiseConserves(s, step);
      case TimerLook => LookConserves(s, step);
      case TimerHand =>
        Handed(s, step);
        HandedIsKept(s);
        HandConserves(s, step);
      case _ => RestConserves(s, step);
    }
  }

  lemma StepKeeps(s: State, step: Step)
    requires Inv(s)
    ensures Inv(Next(s, step))
  {
    hide Apply, Sorted, Awake, NotEarly, Counted, InOrder, Conserved, Numbered;
    if Enabled(s, step) {
      assert Timing(s);
      StepKeepsTiming(s, step);
      StepKeepsOrder(s, step);
      StepKeepsNumbers(s, step);
      StepConserves(s, step);
    }
  }

  lemma {:induction false} RunKeeps(now: int, steps: seq<Step>)
    ensures Inv(Run(now, steps))
    decreases |steps|
  {
    hide Next;
    if steps != [] {
      RunKeeps(now, steps[..|steps| - 1]);
      StepKeeps(Run(now, steps[..|steps| - 1]), steps[|steps| - 1]);
    }
  }

  // ---------------------------------------------------------------- the promises

  /** No lost wake-up: a timer thread that sleeps, or is going to, wakes up no later than the first
      deadline, plus the time it took to fall asleep after reading the clock; or an interrupt is
      pending or about to be raised. */
  lemma NoLostWakeUp(now: int, steps: seq<Step>)
    ensures var s := Run(now, steps);
            && (s.timer.Drowsy? && s.timed != [] && !s.interrupt && Raising !in s.calls ==>
                  s.timer.read + s.timer.s <= s.timed[0].notBefore)
            && (s.timer.Asleep? && s.timed != [] && !s.interrupt && Raising !in s.calls ==>
                  s.timer.began + s.timer.s <= s.timed[0].notBefore + (s.timer.began - s.timer.read))
  {
    RunKeeps(now, steps);
  }

  /** A thread that has taken a unit of the semaphore always finds a command. */
  lemma FrontExists(now: int, steps: seq<Step>)
    ensures var s := Run(now, steps); s.taking > 0 ==> s.due != [] && Enabled(s, Take)
  {
    RunKeeps(now, steps);
  }

  /** Commands run in the order in which they became due, and none before its time. */
  lemma FirstComeFirstServed(now: int, steps: seq<Step>)
    ensures var s := Run(now, steps);
            && Works(s.executed) <= s.received
            && (forall i | 0 <= i < |s.executed| :: s.executed[i].0.notBefore <= s.executed[i].1)
  {
    RunKeeps(now, steps);
  }

  /** The places a command can be in. */
  function Places(s: State, w: Work): nat {
    multiset(Waiting(s.calls))[w] + multiset(s.timed)[w] + multiset(InHand(s.timer))[w] + multiset(s.due)[w]
    + multiset(Works(s.executed))[w]
  }

  lemma {:induction false} IssuedOnce(issued: seq<Work>, k: nat)
    requires k < |issued| && forall j | 0 <= j < |issued| :: issued[j].id == j
    ensures multiset(issued)[issued[k]] == 1
    decreases |issued|
  {
    var last := |issued| - 1;
    assert issued == issued[..last] + [issued[last]];
    if k < last {
      IssuedOnce(issued[..last], k);
    } else {
      assert issued[k] !in issued[..last];
    }
  }

  /** Every accepted command is in exactly one place, so it is executed at most once. */
  lemma EachInOnePlace(now: int, steps: seq<Step>, k: nat)
    requires k < |Run(now, steps).issued|
    ensures var s := Run(now, steps); Places(s, s.issued[k]) == 1
  {
    hide Waiting, Works;
    RunKeeps(now, steps);
    var s := Run(now, steps);
    var w := s.issued[k];
    IssuedOnce(s.issued, k);
    assert multiset(s.received) == multiset(Works(s.executed)) + multiset(s.due);
    assert Everywhere(s)[w] == 1;
  }

  /** Only the passing of time and new work are possible. */
  predicate Idle(s: State) {
    && s.calls == [] && s.posting == 0 && s.sem == 0 && s.taking == 0 && !s.terminate
    && s.timer.Asleep? && !s.interrupt && s.now < s.timer.began + s.timer.s
  }

  /** While anything but that is possible some thread can go on; when nothing is, every accepted
      command has been executed or lies in the future, not counting the time the timer thread took
      to fall asleep. */
  lemma NothingIsForgotten(now: int, steps: seq<Step>, k: nat) returns (step: Step)
    requires k < |Run(now, steps).issued| && !Run(now, steps).terminate
    ensures var s := Run(now, steps);
            var w := s.issued[k];
            if Idle(s) then
              || w in Works(s.executed)
              || (w in s.timed && w.notBefore + (s.timer.began - s.timer.read) > s.now)
            else Enabled(s, step) && !step.Tick? && !step.Submit? && !step.Delay? && !step.Terminate?
  {
    hide Waiting, Works;
    RunKeeps(now, steps);
    var s := Run(now, steps);
    step := Post;
    if Idle(s) {
      EachInOnePlace(now, steps, k);
      OnlyTimed(s, s.issued[k]);
    } else {
      step := Possible(s);
    }
  }

  lemma OnlyTimed(s: State, w: Work)
    requires Sorted(s.timed) && Awake(s) && Counted(s) && Idle(s) && Places(s, w) == 1
    ensures w in Works(s.executed) || (w in s.timed && w.notBefore + (s.timer.began - s.timer.read) > s.now)
  {
    assert Waiting(s.calls) == [] && InHand(s.timer) == [] && s.due == [];
    if w in s.timed {
      var i :| 0 <= i < |s.timed| && s.timed[i] == w;
      assert s.timed[0].notBefore <= w.notBefore;
    }
  }

  /** A step of the threads. */
  lemma Possible(s: State) returns (step: Step)
    requires Inv(s) && !Idle(s) && !s.terminate
    ensures Enabled(s, step) && !step.Tick? && !step.Submit? && !step.Delay? && !step.Terminate?
  {
    hide Conserved, Numbered, InOrder, Awake, NotEarly;
    if s.posting > 0 {
      step := Post;
    } else if s.sem > 0 {
      step := Wait;
    } else if s.taking > 0 {
      step := Take;
    } else if s.calls != [] {
      if s.calls[0].Raising? {
        step := Raise(0);
      } else {
        var at := Position(s.timed, s.calls[0].work);
        step := Enter(0, at);
      }
    } else {
      match s.timer
      case AtLoop => step := TimerLook;
      case Handing(_) => step := TimerHand;
      case Posting => step := TimerPost;
      case Drowsy(_, _) => step := TimerSleep;
      case Asleep(_, _, _) => step := TimerWake(s.interrupt);
      case Gone => assert false;
    }
  }

  lemma {:induction false} Position(q: seq<Work>, w: Work) returns (at: nat)
    requires Sorted(q)
    ensures at <= |q| && Sorted(Inserted(q, at, w))
  {
    at := 0;
    while at < |q| && q[at].notBefore < w.notBefore
      invariant at <= |q| && forall i | 0 <= i < at :: q[i].notBefore < w.notBefore
    {
      at := at + 1;
    }
  }
}
