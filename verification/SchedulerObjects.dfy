/** The critical sections of CTimedWork and CWorkScheduler, updating their queues in place. They
    compute what the steps of Scheduler.dfy prescribe. */
module SchedulerObjects {
  import opened Prelude
  import opened Scheduler

  class TimedWork {
    var timed: seq<Work>

    predicate Valid()
      reads this
    {
      Sorted(timed)
    }

    constructor ()
      ensures Valid() && timed == []
    {
      timed := [];
    }

    /** The critical section of ScheduleWork. */
    method Insert(w: Work) returns (needInterrupt: bool)
      requires Valid()
      modifies this
      ensures Valid()
      ensures exists at :: 0 <= at <= |old(timed)| && timed == Inserted(old(timed), at, w)
      ensures needInterrupt <==> NeedInterrupt(old(timed), w.notBefore)
    {
      needInterrupt := false;
      if |timed| == 0 {
        needInterrupt := true;
      } else {
        var first := timed[0].notBefore;
        if first > w.notBefore { needInterrupt := true; }
      }
      var at := 0;
      while at < |timed| && timed[at].notBefore < w.notBefore
        invariant at <= |timed| && forall i | 0 <= i < at :: timed[i].notBefore < w.notBefore
      {
        at := at + 1;
      }
      timed := Inserted(timed, at, w);
    }

    /** One turn of the timer thread up to unlocking: how long to sleep, or what to hand over. */
    method Look(now: int) returns (sleep: int, cmd: Option<Work>)
      requires Valid()
      modifies this
      ensures Valid()
      ensures match Decide(old(timed), now)
              case HandOver => cmd == Some(old(timed)[0]) && timed == old(timed)[1..]
              case Sleep(s) => cmd == None && sleep == s && timed == old(timed)
    {
      sleep, cmd := 0, None;
      if timed != [] {
        var w := timed[0].notBefore;
        if w > now {
          sleep := w - now;
        } else {
          cmd := Some(timed[0]);
          timed := timed[1..];
        }
      } else {
        sleep := HOUR;
      }
    }
  }

  class WorkScheduler {
    var due: seq<Work>
    var semaphore: nat
    var worksReceived: nat
    var worksCompleted: nat

    /** Between two calls, when no other thread is inside one. */
    predicate Valid()
      reads this
    {
      semaphore == |due| && worksReceived == worksCompleted + |due|
    }

    constructor ()
      ensures Valid() && due == [] && worksCompleted == 0
    {
      due, semaphore, worksReceived, worksCompleted := [], 0, 0, 0;
    }

    /** `locked` tells whether somebody else holds the mutex; only a try gives up then. */
    method ScheduleWork(w: Work, tryOnly: bool, locked: bool) returns (ok: bool)
      requires Valid() && MaySchedule(w.code, w.target)
      modifies this
      ensures Valid()
      ensures ok <==> FireAndForget(w.code, w.target) || !(tryOnly && locked)
      ensures due == if FireAndForget(w.code, w.target) || (tryOnly && locked) then old(due) else old(due) + [w]
      ensures worksCompleted == old(worksCompleted)
    {
      if w.code >= BROADCAST_MAX && !w.target { return true; }
      if tryOnly && locked { return false; }
      due := due + [w];
      worksReceived := worksReceived + 1;
      semaphore := semaphore + 1;
      ok := true;
    }

    method GetNextCmd() returns (cmd: Work)
      requires due != []
      modifies `due, `worksCompleted
      ensures old(due) == [cmd] + due && worksCompleted == old(worksCompleted) + 1
    {
      cmd := due[0];
      due := due[1..];
      worksCompleted := worksCompleted + 1;
    }

    /** A call that may not block returns at once if nothing is due; one that may waits on the
        semaphore then. Otherwise the oldest command leaves, either to its target or, as a broadcast,
        to all subscribers. */
    method DoWork(block: bool) returns (outcome: Outcome)
      requires Valid()
      modifies this
      ensures Valid()
      ensures outcome == Nothing <==> old(due) == [] && !block
      ensures outcome == Waiting <==> old(due) == [] && block
      ensures outcome.Worked? ==> old(due) == [outcome.cmd] + due
                                  && (outcome.broadcast <==> outcome.cmd.code <= BROADCAST_MAX)
      ensures !outcome.Worked? ==> due == old(due)
      ensures worksCompleted == old(worksCompleted) + if outcome.Worked? then 1 else 0
    {
      if !block && due == [] { return Nothing; }
      if semaphore == 0 { return Waiting; }
      semaphore := semaphore - 1;
      var next := GetNextCmd();
      outcome := Worked(next, !(next.code > BROADCAST_MAX));
    }
  }

  /** How far a call of DoWork gets: it returns false, waits in sem_wait, or has done a command. */
  datatype Outcome = Nothing | Waiting | Worked(cmd: Work, broadcast: bool)
}
