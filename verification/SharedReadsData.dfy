/** Who gets the data of a read, and how long the master goes on reading: said of the steps of a run
    and of what the slaves have got. */
module SharedReadsData {
  import opened Prelude
  import opened SharedReads

  // ---------------------------------------------------------------- data for every registered slave

  /** The data of the reads that completed while slave i was registered, in order. */
  function Broadcast(now: int, n: nat, steps: seq<Step>, i: nat): seq<string>
    decreases |steps|
  {
    if steps == [] then []
    else
      var init, last := steps[..|steps| - 1], steps[|steps| - 1];
      var l := Run(now, n, init);
      Broadcast(now, n, init, i)
      + if last.ReadDone? && !last.timedOut && Enabled(l, last) && i < |l.slaves| && l.slaves[i].registered
        then [last.data] else []
  }

  /** What was delivered to slave i, also before a reset. */
  function Got(now: int, n: nat, steps: seq<Step>, i: nat): seq<string>
    decreases |steps|
  {
    if steps == [] then []
    else
      var init := steps[..|steps| - 1];
      var l, l' := Run(now, n, init), Run(now, n, steps);
      Got(now, n, init, i)
      + if i < |l.slaves| && i < |l'.slaves| && |l'.slaves[i].delivered| > |l.slaves[i].delivered|
        then [l'.slaves[i].delivered[|l'.slaves[i].delivered| - 1]] else []
  }

  /** The data on its way to slave i. */
  function InTransit(handing: seq<(nat, string)>, i: nat): seq<string> {
    if handing == [] then []
    else
      var last := handing[|handing| - 1];
      InTransit(handing[..|handing| - 1], i) + if last.0 == i then [last.1] else []
  }

  lemma {:induction false} InTransitAppend(a: seq<(nat, string)>, b: seq<(nat, string)>, i: nat)
    ensures InTransit(a + b, i) == InTransit(a, i) + InTransit(b, i)
  {
    if b == [] {
      assert a + b == a;
    } else {
      assert (a + b)[..|a + b| - 1] == a + b[..|b| - 1];
      InTransitAppend(a, b[..|b| - 1], i);
    }
  }

  lemma InTransitOne(h: (nat, string), i: nat)
    ensures InTransit([h], i) == if h.0 == i then [h.1] else []
  {
    assert [h][..0] == [];
  }

  /** Without entry k. */
  lemma InTransitWithout(handing: seq<(nat, string)>, k: nat, i: nat)
    requires k < |handing|
    ensures var rest := handing[..k] + handing[k + 1..];
            var taken := if handing[k].0 == i then [handing[k].1] else [];
            && multiset(InTransit(handing, i)) == multiset(InTransit(rest, i)) + multiset(taken)
            && (k == 0 ==> InTransit(handing, i) == taken + InTransit(rest, i))
  {
    hide InTransit;
    var a, b := handing[..k], handing[k + 1..];
    assert handing == a + ([handing[k]] + b);
    InTransitAppend(a, [handing[k]] + b, i);
    InTransitAppend([handing[k]], b, i);
    InTransitAppend(a, b, i);
    InTransitOne(handing[k], i);
    ThreeParts(InTransit(a, i), if handing[k].0 == i then [handing[k].1] else [], InTransit(b, i));
    if k == 0 {
      assert a + b == b;
      assert handing == [handing[k]] + b;
    }
  }

  lemma ThreeParts(a: seq<string>, b: seq<string>, c: seq<string>)
    ensures multiset(a + (b + c)) == multiset(a + c) + multiset(b)
  {
    assert multiset(b + c) == multiset(b) + multiset(c);
  }

  lemma {:induction false} HandedOut(listening: seq<nat>, data: string, i: nat)
    requires Once(listening)
    ensures InTransit(HandOut(listening, data), i) == if i in listening then [data] else []
    decreases |listening|
  {
    if listening != [] {
      var init := listening[..|listening| - 1];
      assert HandOut(listening, data)[..|listening| - 1] == HandOut(init, data);
      HandedOut(init, data, i);
      assert listening == init + [listening[|listening| - 1]];
    }
  }

  /** What one step adds to the broadcast data and to the delivered data. */
  function Sent(l: Line, step: Step, i: nat): seq<string> {
    if step.ReadDone? && !step.timedOut && Enabled(l, step) && i < |l.slaves| && l.slaves[i].registered
    then [step.data] else []
  }

  function Taken(l: Line, step: Step, i: nat): seq<string> {
    if step.HandleRead? && Enabled(l, step) && l.handing[step.k].0 == i then [l.handing[step.k].1] else []
  }

  lemma StepDelivers(l: Line, step: Step, i: nat)
    requires i < |l.slaves|
    ensures var l' := Next(l, step);
            && |l'.slaves| == |l.slaves|
            && (Taken(l, step, i) != [] ==> l'.slaves[i].delivered == l.slaves[i].delivered + Taken(l, step, i))
            && (Taken(l, step, i) == [] ==> |l'.slaves[i].delivered| <= |l.slaves[i].delivered|)
  {
  }

  lemma StepHands(l: Line, step: Step)
    ensures var l' := Next(l, step);
            if step.ReadDone? && Enabled(l, step) && !step.timedOut then
              l'.handing == l.handing + HandOut(l.listening, step.data)
            else if step.HandleRead? && Enabled(l, step) then
              l'.handing == l.handing[..step.k] + l.handing[step.k + 1..]
            else l'.handing == l.handing
  {
    hide SlaveReceive, SlaveHandleRead, EveryOther, Removed, HandOut;
  }

  /** Data sent come in at the end of what is on its way, data taken go out, in front if the first are taken. */
  predicate Moves(before: seq<string>, sent: seq<string>, after: seq<string>, taken: seq<string>, first: bool) {
    && multiset(before) + multiset(sent) == multiset(after) + multiset(taken)
    && (first ==> before + sent == taken + after)
  }

  lemma OnlySent(before: seq<string>, sent: seq<string>)
    ensures Moves(before, sent, before + sent, [], true)
  {
    assert [] + (before + sent) == before + sent;
    assert multiset(before + sent) == multiset(before) + multiset(sent);
  }

  lemma OnlyTaken(before: seq<string>, after: seq<string>, taken: seq<string>, first: bool)
    requires multiset(before) == multiset(after) + multiset(taken) && (first ==> before == taken + after)
    ensures Moves(before, [], after, taken, first)
  {
    assert before + [] == before;
  }

  lemma StepMoves(l: Line, step: Step, i: nat)
    requires Listed(l) && i < |l.slaves|
    ensures Moves(InTransit(l.handing, i), Sent(l, step, i), InTransit(Next(l, step).handing, i), Taken(l, step, i),
                  step.HandleRead? ==> step.k == 0)
  {
    hide InTransit, Moves, Next, HandOut;
    var before := InTransit(l.handing, i);
    StepHands(l, step);
    OnlySent(before, Sent(l, step, i));
    if step.ReadDone? && Enabled(l, step) && !step.timedOut {
      HandedOut(l.listening, step.data, i);
      InTransitAppend(l.handing, HandOut(l.listening, step.data), i);
    } else if step.HandleRead? && Enabled(l, step) {
      InTransitWithout(l.handing, step.k, i);
      OnlyTaken(before, InTransit(Next(l, step).handing, i), Taken(l, step, i), step.k == 0);
    } else {
      assert before + [] == before;
      OnlyTaken(before, before, [], step.HandleRead? ==> step.k == 0);
      assert Sent(l, step, i) == [];
    }
  }

  /** The scheduler hands over what was scheduled first. */
  predicate FirstComeFirst(steps: seq<Step>) {
    forall k | 0 <= k < |steps| && steps[k].HandleRead? :: steps[k].k == 0
  }

  lemma Moved(got: seq<string>, before: seq<string>, all: seq<string>, after: seq<string>, taken: seq<string>,
              sent: seq<string>, first: bool)
    requires multiset(got) + multiset(before) == multiset(all) && Moves(before, sent, after, taken, first)
    ensures multiset(got + taken) + multiset(after) == multiset(all + sent)
  {
    assert multiset(got) + (multiset(before) + multiset(sent)) == multiset(all) + multiset(sent);
  }

  lemma MovedInOrder(got: seq<string>, before: seq<string>, all: seq<string>, after: seq<string>, taken: seq<string>,
                     sent: seq<string>)
    requires got + before == all && Moves(before, sent, after, taken, true)
    ensures (got + taken) + after == all + sent
  {
    assert (got + taken) + after == got + (taken + after);
    assert got + (before + sent) == (got + before) + sent;
  }

  /** Every read that completes with data reaches each slave that is registered then, once, and no
      other: what a slave has got, with what is on its way, is what was broadcast to it; in order too,
      when the scheduler keeps the order. */
  lemma {:induction false} EverySlaveGetsTheData(now: int, n: nat, steps: seq<Step>, i: nat)
    requires i < n
    ensures var l := Run(now, n, steps);
            var got, coming, all := Got(now, n, steps, i), InTransit(l.handing, i), Broadcast(now, n, steps, i);
            && multiset(got) + multiset(coming) == multiset(all)
            && (FirstComeFirst(steps) ==> got + coming == all)
    decreases |steps|
  {
    hide Next, InTransit, Enabled, Listed, Moves;
    if steps == [] {
      NothingComing(now, n, i);
    } else {
      var init, last := steps[..|steps| - 1], steps[|steps| - 1];
      var l, l' := Run(now, n, init), Run(now, n, steps);
      EverySlaveGetsTheData(now, n, init, i);
      RunKeeps(now, n, init);
      SlavesStay(now, n, init);
      StepDelivers(l, last, i);
      StepMoves(l, last, i);
      var got, before, all := Got(now, n, init, i), InTransit(l.handing, i), Broadcast(now, n, init, i);
      var after, taken, sent := InTransit(l'.handing, i), Taken(l, last, i), Sent(l, last, i);
      assert Got(now, n, steps, i) == got + taken;
      assert Broadcast(now, n, steps, i) == all + sent;
      Moved(got, before, all, after, taken, sent, last.HandleRead? ==> last.k == 0);
      if FirstComeFirst(steps) {
        assert FirstComeFirst(init);
        MovedInOrder(got, before, all, after, taken, sent);
      }
    }
  }

  lemma NothingComing(now: int, n: nat, i: nat)
    ensures InTransit(Initial(now, n).handing, i) == []
  {
  }

  /** Data that arrive at a slave go to every read that is pending there, each once and in their order,
      or into the buffer if none is; a read takes the whole buffer, or becomes pending. */
  lemma ReadersGetTheData(l: Line, step: Step)
    requires Enabled(l, step)
    ensures step.HandleRead? ==>
              var (i, data) := l.handing[step.k];
              var s, s' := l.slaves[i], Next(l, step).slaves[i];
              && s'.pending == [] && |s'.answers| == |s.answers| + |s.pending| && s.answers <= s'.answers
              && (forall j | 0 <= j < |s.pending| :: s'.answers[|s.answers| + j] == (s.pending[j], data))
              && s'.buffer == if s.pending == [] then s.buffer + data else s.buffer
    ensures step.Receive? ==>
              var s, s' := l.slaves[step.i], Next(l, step).slaves[step.i];
              if s.buffer == "" then s'.pending == s.pending + [step.id] && s'.answers == s.answers && s'.buffer == ""
              else s'.pending == s.pending && s'.answers == s.answers + [(step.id, s.buffer)] && s'.buffer == ""
  {
    hide SlaveHandleRead, SlaveReceive;
    if step.HandleRead? {
      Handles(l.slaves[l.handing[step.k].0], l.handing[step.k].1);
    } else if step.Receive? {
      Receives(l.slaves[step.i], step.id);
    }
  }

  lemma Handles(s: Slave, data: string)
    ensures var s' := SlaveHandleRead(s, data);
            && s'.pending == [] && |s'.answers| == |s.answers| + |s.pending| && s.answers <= s'.answers
            && (forall j | 0 <= j < |s.pending| :: s'.answers[|s.answers| + j] == (s.pending[j], data))
            && s'.buffer == if s.pending == [] then s.buffer + data else s.buffer
  {
  }

  lemma Receives(s: Slave, id: nat)
    ensures var s' := SlaveReceive(s, id);
            if s.buffer == "" then s'.pending == s.pending + [id] && s'.answers == s.answers && s'.buffer == ""
            else s'.pending == s.pending && s'.answers == s.answers + [(id, s.buffer)] && s'.buffer == ""
  {
  }

  // ---------------------------------------------------------------- how long the master reads

  /** The deadlines asked for since the read that is going on was begun. */
  function Wanted(now: int, n: nat, steps: seq<Step>): seq<int>
    decreases |steps|
  {
    if steps == [] then []
    else
      var init, last := steps[..|steps| - 1], steps[|steps| - 1];
      var l := Run(now, n, init);
      if last.Receive? && last.i < |l.slaves| && l.slaves[last.i].buffer == "" then
        (if l.outstanding == 0 then [] else Wanted(now, n, init)) + [l.now + last.timeout]
      else Wanted(now, n, init)
  }

  lemma {:induction false} SessionIsWanted(now: int, n: nat, steps: seq<Step>)
    ensures Run(now, n, steps).session == Wanted(now, n, steps)
    decreases |steps|
  {
    hide Next, Reading, Listed;
    if steps != [] {
      var init := steps[..|steps| - 1];
      SessionIsWanted(now, n, init);
      RunKeeps(now, n, init);
      StepSession(Run(now, n, init), steps[|steps| - 1]);
    }
  }

  lemma StepSession(l: Line, step: Step)
    requires Reading(l)
    ensures Next(l, step).session ==
              if step.Receive? && step.i < |l.slaves| && l.slaves[step.i].buffer == "" then
                (if l.outstanding == 0 then [] else l.session) + [l.now + step.timeout]
              else l.session
  {
    hide SlaveReceive, SlaveHandleRead, EveryOther, Removed, IsLatest;
    if step.Receive? { assert [] + [l.now + step.timeout] == [l.now + step.timeout]; }
  }

  predicate AnyRegistered(l: Line) { exists i :: 0 <= i < |l.slaves| && l.slaves[i].registered }

  predicate TimeLeft(now: int, wanted: seq<int>) { exists k :: 0 <= k < |wanted| && now < wanted[k] }

  /** A read that completes with data is not repeated. One that times out is started again if and only
      if a slave is registered and some deadline asked for since it began has not passed. A read that
      a slave cannot answer from its buffer finds one going on, or begins one. */
  lemma ReadsGoOnExactly(now: int, n: nat, steps: seq<Step>, step: Step)
    requires Enabled(Run(now, n, steps), step)
    ensures var l, l' := Run(now, n, steps), Run(now, n, steps + [step]);
            && (step.ReadDone? && !step.timedOut ==> l'.outstanding == 0)
            && (step.ReadDone? && step.timedOut ==>
                  l'.outstanding == if AnyRegistered(l) && TimeLeft(l.now, Wanted(now, n, steps)) then 1 else 0)
            && (step.Receive? && l.slaves[step.i].buffer == "" ==> l'.outstanding == 1)
            && (step.Receive? && l.slaves[step.i].buffer != "" ==> l'.outstanding == l.outstanding)
            && (!step.ReadDone? && !step.Receive? ==> l'.outstanding == l.outstanding)
  {
    hide Run, Wanted, SlaveReceive, SlaveHandleRead, EveryOther, Removed;
    RunMore(now, n, steps, step);
    RunKeeps(now, n, steps);
    SessionIsWanted(now, n, steps);
    var l := Run(now, n, steps);
    if step.ReadDone? && step.timedOut {
      SomebodyListens(l);
      if l.readTimeout.Some? { LatestDecides(l.now, l.readTimeout.value, l.session); }
    }
  }

  lemma RunMore(now: int, n: nat, steps: seq<Step>, step: Step)
    ensures Run(now, n, steps + [step]) == Next(Run(now, n, steps), step)
  {
    assert (steps + [step])[..|steps|] == steps;
  }

  lemma SomebodyListens(l: Line)
    requires Listed(l)
    ensures l.listening != [] <==> AnyRegistered(l)
  {
    if l.listening != [] { assert l.listening[0] in l.listening; }
  }

  lemma LatestDecides(now: int, deadline: int, session: seq<int>)
    requires IsLatest(deadline, session)
    ensures now < deadline <==> TimeLeft(now, session)
  {
  }

  // ---------------------------------------------------------------- timers

  /** A read becomes pending. */
  predicate SetsTimer(l: Line, step: Step) { step.Receive? && step.i < |l.slaves| && l.slaves[step.i].buffer == "" }

  predicate RunsTimer(l: Line, step: Step) { step.HandleTimeouts? && Enabled(l, step) }

  /** The timers that the pending reads ask for, and those that have run. */
  function Asked(now: int, n: nat, steps: seq<Step>): seq<(nat, int)>
    decreases |steps|
  {
    if steps == [] then []
    else
      var init, last := steps[..|steps| - 1], steps[|steps| - 1];
      var l := Run(now, n, init);
      Asked(now, n, init)
      + if SetsTimer(l, last) then [(last.i, l.now + last.timeout)] else []
  }

  function Ran(now: int, n: nat, steps: seq<Step>): seq<(nat, int)>
    decreases |steps|
  {
    if steps == [] then []
    else
      var init, last := steps[..|steps| - 1], steps[|steps| - 1];
      var l := Run(now, n, init);
      Ran(now, n, init) + if RunsTimer(l, last) then [l.timers[last.k]] else []
  }

  lemma OneOut(timers: seq<(nat, int)>, k: nat)
    requires k < |timers|
    ensures multiset(timers) == multiset(timers[..k] + timers[k + 1..]) + multiset([timers[k]])
  {
    assert timers == timers[..k] + ([timers[k]] + timers[k + 1..]);
  }

  lemma StepTimers(l: Line, step: Step)
    ensures var l' := Next(l, step);
            && (SetsTimer(l, step) ==> l'.timers == l.timers + [(step.i, l.now + step.timeout)])
            && (RunsTimer(l, step) ==> multiset(l.timers) == multiset(l'.timers) + multiset([l.timers[step.k]]))
            && (!SetsTimer(l, step) && !RunsTimer(l, step) ==> l'.timers == l.timers)
  {
    hide SlaveReceive, SlaveHandleRead, EveryOther, Removed;
    if RunsTimer(l, step) { OneOut(l.timers, step.k); }
  }

  /** What the last step adds. */
  lemma LastStep(now: int, n: nat, steps: seq<Step>)
    requires steps != []
    ensures var init, last := steps[..|steps| - 1], steps[|steps| - 1];
            var l := Run(now, n, init);
            && Run(now, n, steps) == Next(l, last)
            && Asked(now, n, steps) == Asked(now, n, init)
                                       + (if SetsTimer(l, last) then [(last.i, l.now + last.timeout)] else [])
            && Ran(now, n, steps) == Ran(now, n, init) + (if RunsTimer(l, last) then [l.timers[last.k]] else [])
  {
    hide Next, RunsTimer, SetsTimer;
    TimerIsThere(Run(now, n, steps[..|steps| - 1]), steps[|steps| - 1]);
  }

  lemma {:induction false} EachTimerOnce(now: int, n: nat, steps: seq<Step>)
    ensures multiset(Run(now, n, steps).timers) + multiset(Ran(now, n, steps)) == multiset(Asked(now, n, steps))
    decreases |steps|
  {
    hide Run, Ran, Asked, Next, RunsTimer, SetsTimer, Initial;
    if steps == [] {
      NoTimers(now, n);
    } else {
      var init, last := steps[..|steps| - 1], steps[|steps| - 1];
      var l := Run(now, n, init);
      EachTimerOnce(now, n, init);
      LastStep(now, n, steps);
      TimerMoves(l, last, Ran(now, n, init), Asked(now, n, init));
    }
  }

  lemma NoTimers(now: int, n: nat)
    ensures Run(now, n, []).timers == [] && Ran(now, n, []) == [] && Asked(now, n, []) == []
  {
  }

  lemma TimerMoves(l: Line, step: Step, ran: seq<(nat, int)>, asked: seq<(nat, int)>)
    requires multiset(l.timers) + multiset(ran) == multiset(asked)
    ensures var asked' := asked + (if SetsTimer(l, step) then [(step.i, l.now + step.timeout)] else []);
            var ran' := ran + (if RunsTimer(l, step) then [l.timers[step.k]] else []);
            multiset(Next(l, step).timers) + multiset(ran') == multiset(asked')
  {
    hide Next, RunsTimer, SetsTimer;
    StepTimers(l, step);
    TimerIsThere(l, step);
    assert ran + [] == ran && asked + [] == asked;
    if SetsTimer(l, step) {
      Both(l, step);
      OneMore(l.timers, ran, asked, (step.i, l.now + step.timeout));
    } else if RunsTimer(l, step) {
      OneRun(multiset(Next(l, step).timers), ran, asked, l.timers[step.k]);
    }
  }

  lemma TimerIsThere(l: Line, step: Step)
    ensures RunsTimer(l, step) ==> step.HandleTimeouts? && step.k < |l.timers|
    ensures SetsTimer(l, step) ==> step.Receive?
  {
  }

  lemma Both(l: Line, step: Step)
    requires SetsTimer(l, step)
    ensures step.Receive? && !RunsTimer(l, step)
  {
  }

  lemma {:induction false} RanWhenDue(now: int, n: nat, steps: seq<Step>)
    ensures forall k | 0 <= k < |Ran(now, n, steps)| :: Ran(now, n, steps)[k].1 <= Run(now, n, steps).now
    decreases |steps|
  {
    hide Next, RunsTimer;
    if steps != [] {
      var init, last := steps[..|steps| - 1], steps[|steps| - 1];
      RanWhenDue(now, n, init);
      TimerIsDue(Run(now, n, init), last);
    }
  }

  /** Each read that becomes pending sets one timer, to its own deadline; a timer runs once, at a time
      when it is due, or is still to come. */
  lemma TimersRunOnce(now: int, n: nat, steps: seq<Step>)
    ensures var l, ran := Run(now, n, steps), Ran(now, n, steps);
            && multiset(l.timers) + multiset(ran) == multiset(Asked(now, n, steps))
            && (forall k | 0 <= k < |ran| :: ran[k].1 <= l.now)
  {
    EachTimerOnce(now, n, steps);
    RanWhenDue(now, n, steps);
  }

  lemma OneMore(timers: seq<(nat, int)>, ran: seq<(nat, int)>, asked: seq<(nat, int)>, t: (nat, int))
    requires multiset(timers) + multiset(ran) == multiset(asked)
    ensures multiset(timers + [t]) + multiset(ran) == multiset(asked + [t])
    ensures ran + [] == ran && asked + [] == asked
  {
  }

  lemma OneRun(left: multiset<(nat, int)>, ran: seq<(nat, int)>, asked: seq<(nat, int)>, t: (nat, int))
    requires left + multiset([t]) + multiset(ran) == multiset(asked)
    ensures left + multiset(ran + [t]) == multiset(asked)
  {
  }

  lemma TimerIsDue(l: Line, step: Step)
    ensures RunsTimer(l, step) ==> l.timers[step.k].1 <= l.now
    ensures Next(l, step).now >= l.now
  {
    hide SlaveReceive, SlaveHandleRead, EveryOther, Removed;
  }
}
