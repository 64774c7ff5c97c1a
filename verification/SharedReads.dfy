/** Reads without atomic blocks on a shared line: the master keeps one read going for all slaves
    that listen, and hands everything received to each of them. */
module SharedReads {
  import opened Prelude

  /** A slave; `answers` and `delivered` record, since its last reset, what its callers were answered
      and what the master delivered to it. */
  datatype Slave = Slave(
    registered: bool,
    buffer: string,
    pending: seq<nat>,
    answers: seq<(nat, string)>,
    delivered: seq<string>)

  /** The line. `outstanding` counts reads at the real connection, `session` lists the deadlines
      requested since reading began, `handing` holds scheduled CMD_HANDLEREAD commands and `timers`
      the scheduled CMD_HANDLETIMEOUTS commands, by slave and time. */
  datatype Line = Line(
    now: int,
    readTimeout: Option<int>,
    outstanding: nat,
    session: seq<int>,
    listening: seq<nat>,
    slaves: seq<Slave>,
    handing: seq<(nat, string)>,
    timers: seq<(nat, int)>)

  datatype Step =
    | Tick(d: nat)
    | Receive(i: nat, id: nat, timeout: nat)
    | ReadDone(timedOut: bool, data: string)
    | HandleRead(k: nat)
    | HandleTimeouts(k: nat)
    | Connect(i: nat)
    | Disconnect(i: nat)

  const QUIET := Slave(false, "", [], [], [])

  function Initial(now: int, n: nat): Line {
    Line(now, None, 0, [], [], seq(n, _ => QUIET), [], [])
  }

  function Removed(s: seq<nat>, x: nat): (r: seq<nat>)
    ensures forall y :: y in r <==> y in s && y != x
  {
    if s == [] then [] else (if s[0] == x then [] else [s[0]]) + Removed(s[1..], x)
  }

  // ---------------------------------------------------------------- the slave

  /** A read: answered from the buffer if there is something in it, else it becomes pending. */
  function SlaveReceive(s: Slave, id: nat): Slave {
    if s.buffer != "" then s.(buffer := "", answers := s.answers + [(id, s.buffer)])
    else s.(registered := true, pending := s.pending + [id])
  }

  function AnswerAll(pending: seq<nat>, data: string): (r: seq<(nat, string)>)
    ensures |r| == |pending| && forall i | 0 <= i < |r| :: r[i] == (pending[i], data)
  {
    seq(|pending|, i requires 0 <= i < |pending| => (pending[i], data))
  }

  function SlaveHandleRead(s: Slave, data: string): Slave {
    var s1 := s.(delivered := s.delivered + [data]);
    if s.pending == [] then s1.(buffer := s.buffer + data)
    else s1.(answers := s.answers + AnswerAll(s.pending, data), pending := [])
  }

  /** The loop over the pending reads never finds a timestamp, because it looks at the timer command
      instead of the read. It erases a read and steps over the next one. */
  function EveryOther(s: seq<nat>): seq<nat> {
    if |s| < 2 then [] else [s[1]] + EveryOther(s[2..])
  }

  /** The reads that this erases. */
  function Erased(s: seq<nat>): seq<nat>
    decreases |s|
  {
    if s == [] then [] else [s[0]] + Erased(if |s| < 2 then [] else s[2..])
  }

  function Reset(s: Slave): Slave { s.(buffer := "", answers := [], delivered := []) }

  // ---------------------------------------------------------------- the master

  /** A deadline requested by a slave; only the first of a session starts a read. */
  function MasterReceive(l: Line, deadline: int): Line {
    if l.readTimeout.None? then
      l.(readTimeout := Some(deadline), outstanding := l.outstanding + 1, session := [deadline])
    else
      l.(readTimeout := Some(if l.readTimeout.value < deadline then deadline else l.readTimeout.value),
         session := l.session + [deadline])
  }

  /** One command for every listening slave. */
  function HandOut(listening: seq<nat>, data: string): (r: seq<(nat, string)>)
    ensures |r| == |listening| && forall i | 0 <= i < |r| :: r[i] == (listening[i], data)
  {
    seq(|listening|, i requires 0 <= i < |listening| => (listening[i], data))
  }

  function MasterReadDone(l: Line, timedOut: bool, data: string): Line
    requires l.outstanding > 0
  {
    var l1 := l.(outstanding := l.outstanding - 1);
    if !timedOut then l1.(handing := l.handing + HandOut(l.listening, data), readTimeout := None)
    else if l.listening == [] then l1.(readTimeout := None)
    else if l.readTimeout.Some? && l.now < l.readTimeout.value then l1.(outstanding := l1.outstanding + 1)
    else l1.(readTimeout := None)
  }

  // ---------------------------------------------------------------- steps

  predicate Enabled(l: Line, step: Step) {
    match step
    case Tick(_) => true
    case Receive(i, _, _) => i < |l.slaves|
    case ReadDone(_, _) => l.outstanding > 0
    case HandleRead(k) => k < |l.handing| && l.handing[k].0 < |l.slaves|
    case HandleTimeouts(k) => k < |l.timers| && l.timers[k].0 < |l.slaves| && l.timers[k].1 <= l.now
    case Connect(i) => i < |l.slaves|
    case Disconnect(i) => i < |l.slaves|
  }

  function Apply(l: Line, step: Step): Line
    requires Enabled(l, step)
  {
    match step
    case Tick(d) => l.(now := l.now + d)
    case Receive(i, id, timeout) =>
      var s := l.slaves[i];
      var l1 := l.(slaves := l.slaves[i := SlaveReceive(s, id)]);
      if s.buffer != "" then l1
      else
        var l2 := l1.(listening := if s.registered then l.listening else l.listening + [i],
                      timers := l.timers + [(i, l.now + timeout)]);
        MasterReceive(l2, l.now + timeout)
    case ReadDone(timedOut, data) => MasterReadDone(l, timedOut, data)
    case HandleRead(k) =>
      var (i, data) := l.handing[k];
      l.(handing := l.handing[..k] + l.handing[k + 1..],
         slaves := l.slaves[i := SlaveHandleRead(l.slaves[i], data)])
    case HandleTimeouts(k) =>
      var i := l.timers[k].0;
      l.(timers := l.timers[..k] + l.timers[k + 1..],
         slaves := l.slaves[i := l.slaves[i].(pending := EveryOther(l.slaves[i].pending))])
    case Connect(i) => l.(slaves := l.slaves[i := Reset(l.slaves[i])])
    case Disconnect(i) =>
      l.(slaves := l.slaves[i := Reset(l.slaves[i]).(registered := false)], listening := Removed(l.listening, i))
  }

  function Next(l: Line, step: Step): Line {
    if Enabled(l, step) then Apply(l, step) else l
  }

  function Run(now: int, n: nat, steps: seq<Step>): Line
    decreases |steps|
  {
    if steps == [] then Initial(now, n) else Next(Run(now, n, steps[..|steps| - 1]), steps[|steps| - 1])
  }

  // ---------------------------------------------------------------- the invariant of the master

  /** The latest of the requested deadlines. */
  predicate IsLatest(deadline: int, session: seq<int>) {
    deadline in session && forall i | 0 <= i < |session| :: session[i] <= deadline
  }

  predicate Reading(l: Line) {
    && l.outstanding == (if l.readTimeout.Some? then 1 else 0)
    && (l.readTimeout.Some? ==> IsLatest(l.readTimeout.value, l.session))
  }

  predicate Once(s: seq<nat>) { forall i, j | 0 <= i < j < |s| :: s[i] != s[j] }

  predicate Listed(l: Line) {
    && Once(l.listening)
    && (forall i <- l.listening :: i < |l.slaves|)
    && (forall i | 0 <= i < |l.slaves| :: i in l.listening <==> l.slaves[i].registered)
    && (forall k | 0 <= k < |l.handing| :: l.handing[k].0 < |l.slaves|)
  }

  lemma {:induction false} RemovedOnce(s: seq<nat>, x: nat)
    requires Once(s)
    ensures Once(Removed(s, x))
  {
    if s != [] {
      RemovedOnce(s[1..], x);
      assert s[0] !in s[1..];
    }
  }

  lemma StepKeepsReading(l: Line, step: Step)
    requires Reading(l) && Enabled(l, step)
    ensures Reading(Apply(l, step))
  {
    if step.Receive? {
      var deadline := l.now + step.timeout;
      assert (l.session + [deadline])[|l.session|] == deadline;
      if l.readTimeout.Some? {
        assert l.readTimeout.value in l.session + [deadline];
      }
    }
  }

  lemma StepKeepsListed(l: Line, step: Step)
    requires Listed(l) && Enabled(l, step)
    ensures Listed(Apply(l, step))
  {
    hide SlaveHandleRead, EveryOther, Removed;
    match step
    case Receive(i, id, timeout) => ReceiveKeepsListed(l, step);
    case HandleRead(k) => HandlingKeepsRegistration(l.slaves[l.handing[k].0], l.handing[k].1);
    case Disconnect(i) => RemovedOnce(l.listening, i);
    case ReadDone(timedOut, data) => ReadDoneKeepsListed(l, timedOut, data);
    case _ =>
  }

  lemma ReadDoneKeepsListed(l: Line, timedOut: bool, data: string)
    requires Listed(l) && l.outstanding > 0
    ensures Listed(MasterReadDone(l, timedOut, data))
  {
    assert forall i | 0 <= i < |l.listening| :: l.listening[i] in l.listening;
  }

  lemma HandlingKeepsRegistration(s: Slave, data: string)
    ensures SlaveHandleRead(s, data).registered == s.registered
  {
  }

  lemma ReceiveKeepsListed(l: Line, step: Step)
    requires Listed(l) && Enabled(l, step) && step.Receive?
    ensures Listed(Apply(l, step))
  {
    var l' := Apply(l, step);
    assert forall j :: j in l.listening + [step.i] <==> j in l.listening || j == step.i;
  }

  lemma {:induction false} RunKeeps(now: int, n: nat, steps: seq<Step>)
    ensures Reading(Run(now, n, steps)) && Listed(Run(now, n, steps))
    decreases |steps|
  {
    hide Reading, Listed, Apply;
    if steps == [] {
      StartKeeps(now, n);
    } else {
      var l, step := Run(now, n, steps[..|steps| - 1]), steps[|steps| - 1];
      RunKeeps(now, n, steps[..|steps| - 1]);
      if Enabled(l, step) {
        StepKeepsReading(l, step);
        StepKeepsListed(l, step);
      }
    }
  }

  lemma StartKeeps(now: int, n: nat)
    ensures Reading(Initial(now, n)) && Listed(Initial(now, n))
  {
  }

  /** The timeout is set exactly while one read is outstanding at the connection, and then it is the
      latest deadline requested in this session. */
  lemma OneReadAtATime(now: int, n: nat, steps: seq<Step>)
    ensures var l := Run(now, n, steps);
            && (l.readTimeout.Some? <==> l.outstanding == 1) && l.outstanding <= 1
            && (l.readTimeout.Some? ==> IsLatest(l.readTimeout.value, l.session))
  {
    RunKeeps(now, n, steps);
  }

  /** A slave is listed once if it is registered, and else not at all. */
  lemma ListedOnce(now: int, n: nat, steps: seq<Step>, i: nat)
    requires i < n
    ensures var l := Run(now, n, steps);
            |l.slaves| == n && multiset(l.listening)[i] == if l.slaves[i].registered then 1 else 0
  {
    RunKeeps(now, n, steps);
    SlavesStay(now, n, steps);
    CountOnce(Run(now, n, steps).listening, i);
  }

  lemma {:induction false} SlavesStay(now: int, n: nat, steps: seq<Step>)
    ensures |Run(now, n, steps).slaves| == n
    decreases |steps|
  {
    if steps != [] { SlavesStay(now, n, steps[..|steps| - 1]); }
  }

  lemma {:induction false} CountOnce(s: seq<nat>, x: nat)
    requires Once(s)
    ensures multiset(s)[x] == if x in s then 1 else 0
  {
    if s != [] {
      CountOnce(s[1..], x);
      assert s == [s[0]] + s[1..];
      assert s[0] !in s[1..];
    }
  }

  // ---------------------------------------------------------------- the data of a slave

  function Joined(parts: seq<string>): string {
    if parts == [] then "" else Joined(parts[..|parts| - 1]) + parts[|parts| - 1]
  }

  function DataOf(answers: seq<(nat, string)>): (r: seq<string>)
    ensures |r| == |answers| && forall i | 0 <= i < |r| :: r[i] == answers[i].1
  {
    seq(|answers|, i requires 0 <= i < |answers| => answers[i].1)
  }

  /** What the callers got, followed by what is buffered, is what was delivered. */
  predicate Complete(s: Slave) { Joined(DataOf(s.answers)) + s.buffer == Joined(s.delivered) }

  predicate Calm(s: Slave) { |s.pending| <= 1 && (s.pending != [] ==> s.buffer == "") && Complete(s) }

  /** Slave i starts a read only when it has none pending. */
  predicate OneByOne(l: Line, step: Step, i: nat) {
    step.Receive? && step.i == i < |l.slaves| ==> l.slaves[i].pending == []
  }

  predicate AlwaysOneByOne(now: int, n: nat, steps: seq<Step>, i: nat) {
    forall k | 0 <= k < |steps| :: OneByOne(Run(now, n, steps[..k]), steps[k], i)
  }

  lemma JoinedMore(parts: seq<string>, s: string)
    ensures Joined(parts + [s]) == Joined(parts) + s
  {
    assert (parts + [s])[..|parts|] == parts;
  }

  lemma AnsweredMore(s: Slave, id: nat, data: string)
    ensures Joined(DataOf(s.answers + [(id, data)])) == Joined(DataOf(s.answers)) + data
  {
    assert DataOf(s.answers + [(id, data)]) == DataOf(s.answers) + [data];
    JoinedMore(DataOf(s.answers), data);
  }

  lemma ReceiveKeepsCalm(s: Slave, id: nat)
    requires Calm(s) && s.pending == []
    ensures Calm(SlaveReceive(s, id))
  {
    hide Joined, DataOf;
    AnsweredMore(s, id, s.buffer);
  }

  lemma HandleReadKeepsCalm(s: Slave, data: string)
    requires Calm(s)
    ensures Calm(SlaveHandleRead(s, data))
  {
    hide Joined, DataOf;
    JoinedMore(s.delivered, data);
    if s.pending != [] {
      assert AnswerAll(s.pending, data) == [(s.pending[0], data)];
      AnsweredMore(s, s.pending[0], data);
    }
  }

  lemma ResetIsCalm(s: Slave)
    requires Calm(s)
    ensures Calm(Reset(s))
  {
    assert DataOf([]) == [];
  }

  lemma StepKeepsCalm(l: Line, step: Step, i: nat)
    requires i < |l.slaves| && Calm(l.slaves[i]) && Enabled(l, step) && OneByOne(l, step, i)
    ensures Calm(Apply(l, step).slaves[i])
  {
    hide Complete;
    match step
    case Receive(_, id, _) => if step.i == i { ReceiveKeepsCalm(l.slaves[i], id); }
    case HandleRead(k) => HandleReadKeepsCalm(l.slaves[i], l.handing[k].1);
    case HandleTimeouts(_) => SameData(l.slaves[i], EveryOther(l.slaves[i].pending));
    case Connect(_) => ResetIsCalm(l.slaves[i]);
    case Disconnect(_) =>
      ResetIsCalm(l.slaves[i]);
      SameData(Reset(l.slaves[i]), l.slaves[i].pending);
    case _ =>
  }

  lemma SameData(s: Slave, pending: seq<nat>)
    ensures Complete(s.(pending := pending)) == Complete(s) == Complete(s.(registered := false))
  {
  }

  /** Nothing received is lost, doubled or reordered: while slave i has at most one read pending at a
      time, whatever the others do, the data answered to its callers since the last reset, followed by
      its buffer, is all data delivered to it, in order. */
  lemma {:induction false} DataIsComplete(now: int, n: nat, steps: seq<Step>, i: nat)
    requires i < n && AlwaysOneByOne(now, n, steps, i)
    ensures var l := Run(now, n, steps); |l.slaves| == n && Calm(l.slaves[i])
    decreases |steps|
  {
    hide Calm, Apply;
    SlavesStay(now, n, steps);
    if steps == [] {
      QuietIsCalm();
    } else {
      var init := steps[..|steps| - 1];
      var l, step := Run(now, n, init), steps[|steps| - 1];
      SlavesStay(now, n, init);
      forall k | 0 <= k < |init| ensures OneByOne(Run(now, n, init[..k]), init[k], i) {
        assert init[..k] == steps[..k] && OneByOne(Run(now, n, steps[..k]), steps[k], i);
      }
      DataIsComplete(now, n, init, i);
      assert OneByOne(Run(now, n, steps[..|init|]), steps[|init|], i);
      if Enabled(l, step) { StepKeepsCalm(l, step, i); }
    }
  }

  lemma QuietIsCalm()
    ensures Calm(QUIET)
  {
    assert DataOf([]) == [];
  }

  // ---------------------------------------------------------------- what becomes of a read

  /** The handler of timeouts answers nobody; it leaves the pending reads alone only if there are
      none, and else it forgets every second one, beginning with the oldest. */
  lemma TimeoutsForget(l: Line, k: nat)
    requires Enabled(l, HandleTimeouts(k))
    ensures var i := l.timers[k].0;
            var s, s' := l.slaves[i], Next(l, HandleTimeouts(k)).slaves[i];
            && s'.answers == s.answers && s'.buffer == s.buffer
            && multiset(s.pending) == multiset(s'.pending) + multiset(Erased(s.pending))
            && |Erased(s.pending)| == (|s.pending| + 1) / 2
            && (s.pending != [] ==> Erased(s.pending)[0] == s.pending[0])
            && (s'.pending == s.pending <==> s.pending == [])
  {
    ErasedOrKept(l.slaves[l.timers[k].0].pending);
    HalfErased(l.slaves[l.timers[k].0].pending);
  }

  lemma {:induction false} ErasedOrKept(s: seq<nat>)
    ensures multiset(s) == multiset(EveryOther(s)) + multiset(Erased(s))
  {
    if |s| == 1 {
      assert s == [s[0]];
    } else if s != [] {
      var rest := s[2..];
      ErasedOrKept(rest);
      hide EveryOther, Erased;
      FirstTwo(s);
      DealtFirst(s);
      OneFirst(s[1], EveryOther(rest));
      OneFirst(s[0], Erased(rest));
      OneFirst(s[1], rest);
      OneFirst(s[0], [s[1]] + rest);
      Dealt(s[0], s[1], multiset(EveryOther(rest)), multiset(Erased(rest)));
    }
  }

  lemma FirstTwo(s: seq<nat>)
    requires |s| >= 2
    ensures s == [s[0]] + ([s[1]] + s[2..])
  {
    hide EveryOther, Erased;
  }

  lemma DealtFirst(s: seq<nat>)
    requires |s| >= 2
    ensures EveryOther(s) == [s[1]] + EveryOther(s[2..]) && Erased(s) == [s[0]] + Erased(s[2..])
  {
  }

  lemma OneFirst(x: nat, s: seq<nat>)
    ensures multiset([x] + s) == multiset{x} + multiset(s)
  {
  }

  lemma Dealt(x: nat, y: nat, kept: multiset<nat>, erased: multiset<nat>)
    ensures multiset{x} + (multiset{y} + (kept + erased)) == (multiset{y} + kept) + (multiset{x} + erased)
  {
  }

  lemma {:induction false} HalfErased(s: seq<nat>)
    ensures |Erased(s)| == (|s| + 1) / 2 && |EveryOther(s)| == |s| / 2
  {
    if |s| >= 2 { HalfErased(s[2..]); }
  }

  /** Over a run, for one slave: the reads issued, those answered, and those forgotten. */
  datatype History = History(issued: seq<nat>, answered: seq<nat>, forgotten: seq<nat>)

  function Recorded(l: Line, step: Step, i: nat, h: History): History
    requires i < |l.slaves|
  {
    var s := l.slaves[i];
    if !Enabled(l, step) then h
    else
      match step
      case Receive(j, id, _) =>
        if j != i then h
        else h.(issued := h.issued + [id], answered := h.answered + if s.buffer != "" then [id] else [])
      case HandleRead(k) => if l.handing[k].0 != i then h else h.(answered := h.answered + s.pending)
      case HandleTimeouts(k) => if l.timers[k].0 != i then h else h.(forgotten := h.forgotten + Erased(s.pending))
      case _ => h
  }

  function HistoryOf(now: int, n: nat, steps: seq<Step>, i: nat): History
    requires i < n
    decreases |steps|
  {
    if steps == [] then History([], [], [])
    else
      var init := steps[..|steps| - 1];
      SlavesStay(now, n, init);
      Recorded(Run(now, n, init), steps[|steps| - 1], i, HistoryOf(now, n, init, i))
  }

  function IdsOf(answers: seq<(nat, string)>): (r: seq<nat>)
    ensures |r| == |answers| && forall k | 0 <= k < |r| :: r[k] == answers[k].0
  {
    seq(|answers|, k requires 0 <= k < |answers| => answers[k].0)
  }

  /** The history tells of every read, and of exactly the answers the slave gave. */
  predicate Told(s: Slave, h: History) {
    && multiset(h.issued) == multiset(h.answered) + multiset(s.pending) + multiset(h.forgotten)
    && |s.answers| <= |h.answered|
    && h.answered[|h.answered| - |s.answers|..] == IdsOf(s.answers)
  }

  lemma Extends(answered: seq<nat>, answers: seq<(nat, string)>, more: seq<(nat, string)>)
    requires |answers| <= |answered| && answered[|answered| - |answers|..] == IdsOf(answers)
    ensures var all := answered + IdsOf(more);
            all[|all| - |answers + more|..] == IdsOf(answers + more)
  {
    var cut := |answered| - |answers|;
    assert IdsOf(answers + more) == IdsOf(answers) + IdsOf(more);
    assert (answered + IdsOf(more))[cut..] == answered[cut..] + IdsOf(more);
  }

  lemma ReceiveIsTold(s: Slave, id: nat, h: History)
    requires Told(s, h)
    ensures Told(SlaveReceive(s, id), h.(issued := h.issued + [id],
                                         answered := h.answered + if s.buffer != "" then [id] else []))
  {
    hide IdsOf;
    if s.buffer != "" {
      assert IdsOf([(id, s.buffer)]) == [id];
      Extends(h.answered, s.answers, [(id, s.buffer)]);
    } else {
      assert h.answered + [] == h.answered;
    }
  }

  lemma HandleReadIsTold(s: Slave, data: string, h: History)
    requires Told(s, h)
    ensures Told(SlaveHandleRead(s, data), h.(answered := h.answered + s.pending))
  {
    hide IdsOf, AnswerAll;
    IdsOfAll(s.pending, data);
    Extends(h.answered, s.answers, AnswerAll(s.pending, data));
    BothCounted(h.answered, s.pending);
    if s.pending == [] { assert h.answered + s.pending == h.answered; }
  }

  lemma IdsOfAll(pending: seq<nat>, data: string)
    ensures IdsOf(AnswerAll(pending, data)) == pending && |AnswerAll(pending, data)| == |pending|
  {
  }

  lemma BothCounted(a: seq<nat>, b: seq<nat>)
    ensures multiset(a + b) == multiset(a) + multiset(b)
  {
  }

  lemma TimeoutsAreTold(s: Slave, h: History)
    requires Told(s, h)
    ensures Told(s.(pending := EveryOther(s.pending)), h.(forgotten := h.forgotten + Erased(s.pending)))
  {
    ErasedOrKept(s.pending);
  }

  lemma ResetIsTold(s: Slave, h: History)
    requires Told(s, h)
    ensures Told(Reset(s), h) && Told(Reset(s).(registered := false), h)
  {
    assert IdsOf([]) == [];
  }

  lemma StepIsTold(l: Line, step: Step, i: nat, h: History)
    requires i < |l.slaves| && Told(l.slaves[i], h) && Enabled(l, step)
    ensures Told(Apply(l, step).slaves[i], Recorded(l, step, i, h))
  {
    hide Told, SlaveReceive, SlaveHandleRead, EveryOther, Erased, Reset;
    var s := l.slaves[i];
    match step
    case Receive(_, id, _) => ReceiveIsTold(s, id, h);
    case HandleRead(k) => HandleReadIsTold(s, l.handing[k].1, h);
    case HandleTimeouts(_) => TimeoutsAreTold(s, h);
    case Connect(_) => ResetIsTold(s, h);
    case Disconnect(_) => ResetIsTold(s, h);
    case _ =>
  }

  lemma {:induction false} RunIsTold(now: int, n: nat, steps: seq<Step>, i: nat)
    requires i < n
    ensures var l := Run(now, n, steps);
            |l.slaves| == n && Told(l.slaves[i], HistoryOf(now, n, steps, i))
    decreases |steps|
  {
    hide Told, Apply, Enabled;
    SlavesStay(now, n, steps);
    if steps == [] {
      QuietIsTold();
    } else {
      var init := steps[..|steps| - 1];
      SlavesStay(now, n, init);
      RunIsTold(now, n, init, i);
      var l, step := Run(now, n, init), steps[|steps| - 1];
      if Enabled(l, step) { StepIsTold(l, step, i, HistoryOf(now, n, init, i)); }
    }
  }

  lemma QuietIsTold()
    ensures Told(QUIET, History([], [], []))
  {
    assert IdsOf([]) == [];
  }

  /** In every run, a read issued once is in exactly one place: answered, pending, or forgotten. */
  lemma EachReadOnce(now: int, n: nat, steps: seq<Step>, i: nat, id: nat)
    requires i < n && multiset(HistoryOf(now, n, steps, i).issued)[id] == 1
    ensures var h := HistoryOf(now, n, steps, i);
            var l := Run(now, n, steps);
            && |l.slaves| == n
            && multiset(h.answered)[id] + multiset(l.slaves[i].pending)[id] + multiset(h.forgotten)[id] == 1
  {
    RunIsTold(now, n, steps, i);
    var h, s := HistoryOf(now, n, steps, i), Run(now, n, steps).slaves[i];
    assert (multiset(h.answered) + multiset(s.pending) + multiset(h.forgotten))[id] == 1;
  }

  /** A timer of slave i runs when the slave has a read pending. */
  predicate Hits(l: Line, step: Step, i: nat)
    requires i < |l.slaves|
  {
    Enabled(l, step) && step.HandleTimeouts? && l.timers[step.k].0 == i && l.slaves[i].pending != []
  }

  predicate NeverHit(now: int, n: nat, steps: seq<Step>, i: nat)
    requires i < n
    decreases |steps|
  {
    steps != [] ==>
      var init := steps[..|steps| - 1];
      SlavesStay(now, n, init);
      !Hits(Run(now, n, init), steps[|steps| - 1], i) && NeverHit(now, n, init, i)
  }

  /** The documented promise that no caller is left without an answer is kept if and only if no timer
      of the slave ever runs while a read is pending: then, and only then, nothing is forgotten. */
  lemma {:induction false} ForgottenExactly(now: int, n: nat, steps: seq<Step>, i: nat)
    requires i < n
    ensures HistoryOf(now, n, steps, i).forgotten == [] <==> NeverHit(now, n, steps, i)
    decreases |steps|
  {
    hide Apply, Told;
    if steps != [] {
      var init := steps[..|steps| - 1];
      SlavesStay(now, n, init);
      ForgottenExactly(now, n, init, i);
    }
  }

  /** So all reads of such a slave have been answered or still wait. */
  lemma AllAnsweredOrPending(now: int, n: nat, steps: seq<Step>, i: nat)
    requires i < n && NeverHit(now, n, steps, i)
    ensures var h := HistoryOf(now, n, steps, i);
            var l := Run(now, n, steps);
            |l.slaves| == n && multiset(h.issued) == multiset(h.answered) + multiset(l.slaves[i].pending)
  {
    hide HistoryOf, NeverHit, Run;
    RunIsTold(now, n, steps, i);
    ForgottenExactly(now, n, steps, i);
  }

  // ---------------------------------------------------------------- in place

  /** The part of CSharedConnectionMaster for reads outside atomic blocks. Slaves are known by number. */
  class ReadingMaster {
    var readTimeout: Option<int>
    var readingSlaves: seq<nat>

    /** Reads given to the connection, and commands given to the scheduler. */
    var outstanding: nat
    var scheduled: seq<(nat, string)>
    ghost var session: seq<int>

    ghost predicate Valid()
      reads this
    {
      && outstanding == (if readTimeout.Some? then 1 else 0)
      && (readTimeout.Some? ==> IsLatest(readTimeout.value, session))
    }

    constructor ()
      ensures Valid() && readTimeout.None? && readingSlaves == [] && scheduled == []
    {
      readTimeout, readingSlaves, outstanding, scheduled, session := None, [], 0, [], [];
    }

    function ToLine(now: int, slaves: seq<Slave>): Line
      reads this
    {
      Line(now, readTimeout, outstanding, [], readingSlaves, slaves, scheduled, [])
    }

    method SubscribeSlave(slave: nat, subscribe: bool)
      requires Valid()
      modifies `readingSlaves
      ensures Valid()
      ensures readingSlaves == if subscribe then old(readingSlaves) + [slave] else Removed(old(readingSlaves), slave)
    {
      readingSlaves := if subscribe then readingSlaves + [slave] else Removed(readingSlaves, slave);
    }

    method Receive(now: int, timeout: nat)
      requires Valid()
      modifies this
      ensures Valid()
      ensures ToLine(now, []) == MasterReceive(old(ToLine(now, [])), now + timeout).(session := [])
      ensures session == (if old(readTimeout).None? then [] else old(session)) + [now + timeout]
    {
      var deadline := now + timeout;
      if readTimeout.None? {
        readTimeout := Some(deadline);
        outstanding := outstanding + 1;
        session := [deadline];
      } else {
        session := session + [deadline];
        assert session[|session| - 1] == deadline && readTimeout.value in session;
        if readTimeout.value < deadline { readTimeout := Some(deadline); }
      }
    }

    /** CMD_NONATOMIC_HANDLEREADCOMPLETION */
    method ReadCompleted(now: int, timedOut: bool, data: string)
      requires Valid() && outstanding > 0
      modifies this
      ensures Valid() && session == old(session)
      ensures ToLine(now, []) == MasterReadDone(old(ToLine(now, [])), timedOut, data)
    {
      outstanding := outstanding - 1;
      if !timedOut {
        var it := 0;
        while it < |readingSlaves|
          invariant 0 <= it <= |readingSlaves|
          invariant scheduled == old(scheduled) + HandOut(readingSlaves, data)[..it]
          modifies `scheduled
        {
          scheduled := scheduled + [(readingSlaves[it], data)];
          it := it + 1;
        }
        readTimeout := None;
        return;
      }
      if readingSlaves == [] {
        readTimeout := None;
        return;
      }
      if readTimeout.Some? && now < readTimeout.value {
        outstanding := outstanding + 1;
      } else {
        readTimeout := None;
      }
    }
  }

  /** The part of CSharedConnectionSlave for reads outside atomic blocks. */
  class ReadingSlave {
    const master: ReadingMaster
    const index: nat
    var registered: bool
    var readBuffer: string
    var pendingReads: seq<nat>

    /** Callers answered, timers started, and a record of the specification. */
    var scheduled: seq<(nat, string)>
    var timers: seq<int>
    ghost var delivered: seq<string>

    ghost function ToSlave(): Slave
      reads this
    {
      Slave(registered, readBuffer, pendingReads, scheduled, delivered)
    }

    constructor (master: ReadingMaster, index: nat)
      ensures this.master == master && this.index == index && ToSlave() == QUIET
    {
      this.master, this.index := master, index;
      registered, readBuffer, pendingReads, scheduled, timers, delivered := false, "", [], [], [], [];
    }

    method Receive(id: nat, now: int, timeout: nat)
      requires master.Valid()
      modifies this, master
      ensures master.Valid() && ToSlave() == SlaveReceive(old(ToSlave()), id)
      ensures timers == old(timers) + if old(readBuffer) != "" then [] else [now + timeout]
      ensures var l := old(master.ToLine(now, []));
              master.ToLine(now, []) ==
                if old(readBuffer) != "" then l
                else MasterReceive(l.(listening := if old(registered) then l.listening else l.listening + [index]),
                                   now + timeout).(session := [])
    {
      if readBuffer != "" {
        scheduled := scheduled + [(id, readBuffer)];
        readBuffer := "";
        return;
      }
      if !registered {
        master.SubscribeSlave(index, true);
        registered := true;
      }
      pendingReads := pendingReads + [id];
      master.Receive(now, timeout);
      timers := timers + [now + timeout];
    }

    /** CMD_HANDLETIMEOUTS: the iterator moves on after every erased read. */
    method HandleTimeouts()
      modifies `pendingReads
      ensures ToSlave() == old(ToSlave()).(pending := EveryOther(old(pendingReads)))
    {
      var it := 0;
      assert pendingReads[0..] == pendingReads;
      while it < |pendingReads|
        invariant 0 <= it
        invariant if it <= |pendingReads| then
                    pendingReads[..it] + EveryOther(pendingReads[it..]) == EveryOther(old(pendingReads))
                  else pendingReads == EveryOther(old(pendingReads))
        decreases |pendingReads| - it
      {
        EveryOtherStep(pendingReads, it);
        pendingReads := pendingReads[..it] + pendingReads[it + 1..];
        it := it + 1;
      }
      if it == |pendingReads| { assert pendingReads[..it] == pendingReads; }
    }

    /** CMD_HANDLEREAD */
    method HandleRead(data: string)
      modifies this
      ensures ToSlave() == SlaveHandleRead(old(ToSlave()), data)
    {
      delivered := delivered + [data];
      if |pendingReads| == 0 {
        readBuffer := readBuffer + data;
        return;
      }
      var it := 0;
      while it < |pendingReads|
        invariant 0 <= it <= |pendingReads|
        invariant scheduled == old(scheduled) + AnswerAll(pendingReads, data)[..it]
        modifies `scheduled
      {
        scheduled := scheduled + [(pendingReads[it], data)];
        it := it + 1;
      }
      pendingReads := [];
    }
  }

  lemma EveryOtherStep(s: seq<nat>, it: nat)
    requires it < |s|
    ensures var t := s[..it] + s[it + 1..];
            s[..it] + EveryOther(s[it..]) ==
              if it + 1 <= |t| then t[..it + 1] + EveryOther(t[it + 1..]) else t
  {
    var t := s[..it] + s[it + 1..];
    if it + 1 <= |t| {
      assert s[it..][1] == t[it] && s[it..][2..] == t[it + 1..];
      assert t[..it + 1] == s[..it] + [t[it]];
    } else {
      assert EveryOther(s[it..]) == [];
    }
  }

  lemma {:induction false} RunSplit(now: int, n: nat, steps: seq<Step>, step: Step)
    ensures Run(now, n, steps + [step]) == Next(Run(now, n, steps), step)
  {
    assert (steps + [step])[..|steps|] == steps;
  }

  lemma HistorySplit(now: int, n: nat, steps: seq<Step>, step: Step, i: nat)
    requires i < n
    ensures |Run(now, n, steps).slaves| == n
    ensures HistoryOf(now, n, steps + [step], i) == Recorded(Run(now, n, steps), step, i, HistoryOf(now, n, steps, i))
  {
    SlavesStay(now, n, steps);
    assert (steps + [step])[..|steps|] == steps;
  }

  /** A run in which a read times out: it is forgotten, and its caller is not answered. */
  lemma TimedOutReadIsForgotten(now: int, id: nat)
    ensures HistoryOf(now, 1, [Receive(0, id, 100), Tick(100), HandleTimeouts(0)], 0)
            == History([id], [], [id])
  {
    var a, b, c := Receive(0, id, 100), Tick(100), HandleTimeouts(0);
    assert [] + [a] == [a] && [a] + [b] == [a, b] && [a, b] + [c] == [a, b, c];
    RunSplit(now, 1, [], a);
    RunSplit(now, 1, [a], b);
    HistorySplit(now, 1, [], a, 0);
    HistorySplit(now, 1, [a], b, 0);
    HistorySplit(now, 1, [a, b], c, 0);
    assert Erased([id]) == [id];
  }

  /** A run that ends with the first read answered and its timer still to run. */
  lemma FirstAnswered(now: int, first: nat)
    ensures var steps := [Receive(0, first, 100), ReadDone(false, "x"), HandleRead(0)];
            var s := Slave(true, "", [], [(first, "x")], ["x"]);
            && Run(now, 1, steps) == Line(now, None, 0, [now + 100], [0], [s], [], [(0, now + 100)])
            && HistoryOf(now, 1, steps, 0) == History([first], [first], [])
  {
    var a, b, c := Receive(0, first, 100), ReadDone(false, "x"), HandleRead(0);
    assert [] + [a] == [a] && [a] + [b] == [a, b] && [a, b] + [c] == [a, b, c];
    RunSplit(now, 1, [], a);
    RunSplit(now, 1, [a], b);
    RunSplit(now, 1, [a, b], c);
    HistorySplit(now, 1, [], a, 0);
    HistorySplit(now, 1, [a], b, 0);
    HistorySplit(now, 1, [a, b], c, 0);
    var asking := QUIET.(registered := true, pending := [first]);
    assert [] + [first] == [first];
    assert Run(now, 1, [a]) == Line(now, Some(now + 100), 1, [now + 100], [0], [asking], [], [(0, now + 100)]);
    assert Run(now, 1, [a, b]) == Line(now, None, 0, [now + 100], [0], [asking], [(0, "x")], [(0, now + 100)]);
    assert AnswerAll([first], "x") == [(first, "x")] && [] + [(first, "x")] == [(first, "x")];
    assert SlaveHandleRead(asking, "x") == Slave(true, "", [], [(first, "x")], ["x"]);
  }

  /** A run in which a read is forgotten long before its own time is over: the timer of an earlier
      read, which was answered, runs meanwhile. */
  lemma StaleTimerForgets(now: int, first: nat, second: nat)
    ensures var steps := [Receive(0, first, 100), ReadDone(false, "x"), HandleRead(0)]
                         + [Receive(0, second, 1000)] + [Tick(100)] + [HandleTimeouts(0)];
            && HistoryOf(now, 1, steps, 0) == History([first, second], [first], [second])
            && Run(now, 1, steps).now == now + 100
  {
    hide HistoryOf, Run;
    var start := [Receive(0, first, 100), ReadDone(false, "x"), HandleRead(0)];
    var d, e, f := Receive(0, second, 1000), Tick(100), HandleTimeouts(0);
    FirstAnswered(now, first);
    RunSplit(now, 1, start, d);
    RunSplit(now, 1, start + [d], e);
    RunSplit(now, 1, start + [d] + [e], f);
    HistorySplit(now, 1, start, d, 0);
    HistorySplit(now, 1, start + [d], e, 0);
    HistorySplit(now, 1, start + [d] + [e], f, 0);
    assert Run(now, 1, start + [d]).timers == [(0, now + 100), (0, now + 1000)];
    assert [] + [second] == [second];
    assert Run(now, 1, start + [d]).slaves[0].pending == [second];
    assert Erased([second]) == [second];
  }
}
