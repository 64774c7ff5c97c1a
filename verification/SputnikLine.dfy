/** Any number of Sputnik inverters on one shared line. */
module SputnikLine {
  import opened Prelude
  import opened SharedLine
  import opened SharedLineRuns
  import opened SharedLineTheorems
  import opened SputnikMachine

  /** The one callback of an inverter: its code, and the command it waits for on the line. */
  datatype Inverter = Inverter(code: Code, waiting: Option<nat>, err: int, stopped: bool)

  datatype Plant = Plant(line: System, inv: seq<Inverter>)

  datatype PlantStep =
    | RunInverter(i: nat, connected: bool, shutdown: bool, parsed: int, morePending: bool)
    | LineReply(k: nat, result: int)
    | LineEndOfBlock

  function Start(n: nat): Plant {
    Plant(Initial(n), seq(n, _ => Inverter(Init, None, 0, false)))
  }

  predicate Runnable(v: Inverter) { v.waiting.None? && !v.stopped }

  predicate Possible(p: Plant, step: PlantStep) {
    match step
    case RunInverter(i, _, _, _, _) => i < |p.inv| && Runnable(p.inv[i])
    case LineReply(k, _) => k < |p.line.wire|
    case LineEndOfBlock => p.line.ended != []
  }

  function Chosen(p: Plant, step: PlantStep): Action
    requires step.RunInverter? && step.i < |p.inv|
  {
    React(p.inv[step.i].code, Input(p.inv[step.i].err, step.connected, step.shutdown, step.parsed, step.morePending))
  }

  function LineStep(p: Plant, step: PlantStep): Option<Step>
    requires Possible(p, step)
  {
    match step
    case RunInverter(i, _, _, _, _) =>
      var a := Chosen(p, step);
      if a.Use? then Some(Issue(i, a.api, a.hint)) else None
    case LineReply(k, result) => Some(Reply(k, result))
    case LineEndOfBlock => Some(RunEndOfBlock)
  }

  /** The answered caller becomes runnable with the result of its command. */
  function Wake(inv: seq<Inverter>, c: Command, result: int): (r: seq<Inverter>)
    ensures |r| == |inv|
  {
    if c.slave < |inv| then inv[c.slave := inv[c.slave].(waiting := None, err := result)] else inv
  }

  function PlantNext(p: Plant, step: PlantStep): Plant {
    if !Possible(p, step) then p
    else
      var line := if LineStep(p, step).Some? then Next(p.line, LineStep(p, step).value) else p.line;
      match step
      case RunInverter(i, _, _, _, _) =>
        (match Chosen(p, step)
         case Schedule(next) => Plant(line, p.inv[i := Inverter(next, None, 0, false)])
         case Use(_, _, next) => Plant(line, p.inv[i := Inverter(next, Some(|p.line.issued|), 0, false)])
         case Stop => Plant(line, p.inv[i := p.inv[i].(stopped := true)]))
      case LineReply(k, result) =>
        var f := p.line.wire[k];
        Plant(line, if f.toMaster then p.inv else Wake(p.inv, f.cmd, result))
      case LineEndOfBlock =>
        Plant(line, if p.line.m.last.Some? then Wake(p.inv, p.line.m.last.value, p.line.ended[0].1) else p.inv)
  }

  function PlantRun(p: Plant, steps: seq<PlantStep>): Plant
    decreases |steps|
  {
    if steps == [] then p else PlantNext(PlantRun(p, steps[..|steps| - 1]), steps[|steps| - 1])
  }

  // ---------------------------------------------------------------- invariants

  /** The unanswered commands are exactly those their inverters wait for. */
  ghost predicate Outstanding(p: Plant) {
    && (forall i | 0 <= i < |p.inv| && p.inv[i].waiting.Some? ::
          p.inv[i].waiting.value < |p.line.issued| && p.line.issued[p.inv[i].waiting.value].slave == i)
    && (forall k | 0 <= k < |p.line.issued| ::
          && p.line.issued[k].slave < |p.inv|
          && (p.line.issued[k] !in FirstOf(p.line.answered) <==>
              p.inv[p.line.issued[k].slave].waiting == Some(k)))
  }

  predicate Phases(p: Plant) {
    && |p.inv| == |p.line.current|
    && (forall i | 0 <= i < |p.inv| ::
          && (p.line.current[i] != 0 <==> p.inv[i].code == WaitSent)
          && (p.inv[i].stopped ==> p.inv[i].code == Init && p.inv[i].waiting.None?))
  }

  /** A queued block is one Send: the rest of the pair is requested after its reply. */
  predicate SingleSends(m: Master) {
    forall t <- m.blocks :: |m.blocks[t]| == 1 && m.blocks[t][0].hint == Request && m.blocks[t][0].api == Send
  }

  /** Ticketed commands come as pairs: a Send, then the Receive or Noop that ends the block. */
  predicate Pairs(log: seq<Forward>) {
    && (forall i | 0 <= i < |log| && log[i].cmd.hint == Request ::
          && log[i].cmd.api == Send
          && (i + 1 < |log| ==> log[i + 1].cmd.hint == Cease && log[i + 1].cmd.ticket == log[i].cmd.ticket))
    && (forall i | 0 <= i < |log| && log[i].cmd.hint == Cease ::
          && log[i].cmd.api in {Receive, Noop}
          && i > 0 && log[i - 1].cmd.hint == Request && log[i - 1].cmd.ticket == log[i].cmd.ticket)
  }

  /** A send in progress carries the ticket its inverter holds. */
  predicate TicketHeld(p: Plant) {
    forall i | 0 <= i < |p.inv| && i < |p.line.current| && p.inv[i].code == WaitSent && p.inv[i].waiting.Some?
               && p.inv[i].waiting.value < |p.line.issued| ::
      p.line.issued[p.inv[i].waiting.value].ticket == p.line.current[i]
  }

  ghost predicate PlantInv(p: Plant) {
    && Inv(p.line) && Outstanding(p) && Phases(p) && TicketHeld(p) && SingleSends(p.line.m) && Pairs(p.line.log)
  }

  // ---------------------------------------------------------------- the unanswered commands

  /** Each issued command is answered, completed, on the wire, or queued: one of these, once. */
  lemma OnePlaceOnly(s: System, k: nat)
    requires Conserved(s) && Queues(s.m) && k < |s.issued|
    ensures var c := s.issued[k];
            multiset(FirstOf(s.answered))[c] + multiset(FirstOf(s.ended))[c] + multiset(Cmds(s.wire))[c]
            + multiset(s.m.plain)[c] + (if c.ticket in s.m.blocks then multiset(s.m.blocks[c.ticket])[c] else 0) == 1
  {
    hide Flatten;
    var c := s.issued[k];
    IssuedOnce(s, k);
    forall t <- s.m.blocks ensures forall i | 0 <= i < |s.m.blocks[t]| :: s.m.blocks[t][i].ticket == t {
      assert BlockShape(s.m.blocks[t], t);
    }
    FlattenCount(s.m.blocks, c);
    SameFirsts(s.answered + s.ended, s.replies);
    assert FirstOf(s.answered + s.ended) == FirstOf(s.answered) + FirstOf(s.ended);
    assert multiset(FirstOf(s.answered + s.ended)) == multiset(FirstOf(s.answered)) + multiset(FirstOf(s.ended));
    assert multiset(FirstOf(s.replies))[c] + multiset(Cmds(s.wire))[c] == multiset(Cmds(s.log))[c];
    assert multiset(Cmds(s.log))[c] + multiset(s.m.plain)[c] + multiset(Flatten(s.m.blocks))[c]
        == multiset(s.issued)[c];
  }

  lemma {:induction false} FlattenHas(blocks: map<nat, seq<Command>>, t: nat, c: Command)
    requires t in blocks && c in blocks[t]
    ensures c in Flatten(blocks)
    decreases |blocks|
  {
    var least := MinKey(blocks.Keys);
    assert t in blocks.Keys;
    if least != t {
      assert (blocks - {least}).Keys == blocks.Keys - {least};
      FlattenHas(blocks - {least}, t, c);
    }
  }

  ghost predicate Moving(s: System, c: Command) {
    || c in Cmds(s.wire) || c in FirstOf(s.ended) || c in s.m.plain
    || (c.ticket in s.m.blocks && c in s.m.blocks[c.ticket])
  }

  lemma MovingIsUnanswered(s: System, c: Command)
    requires Inv(s) && Moving(s, c)
    ensures c.id < |s.issued| && s.issued[c.id] == c
    ensures c !in FirstOf(s.answered)
  {
    hide Flatten, Queues, Tickets, Ordered, Frontier, Diverted;
    if c.ticket in s.m.blocks && c in s.m.blocks[c.ticket] { FlattenHas(s.m.blocks, c.ticket, c); }
    if c in FirstOf(s.ended) {
      var e :| 0 <= e < |s.ended| && s.ended[e].0 == c;
      assert s.ended[e] in multiset(s.replies);
      var r :| 0 <= r < |s.replies| && s.replies[r] == s.ended[e];
      assert FirstOf(s.replies)[r] == c;
      assert c in multiset(FirstOf(s.replies));
    }
    assert c in multiset(s.issued);
    var k :| 0 <= k < |s.issued| && s.issued[k] == c;
    OnePlaceOnly(s, k);
  }

  lemma UnansweredIsMoving(s: System, k: nat)
    requires Inv(s) && k < |s.issued| && s.issued[k] !in FirstOf(s.answered)
    ensures Moving(s, s.issued[k])
  {
    OnePlaceOnly(s, k);
  }

  /** A block that its inverter may still extend is the active one while the inverter is runnable. */
  lemma OwnTurn(p: Plant, i: nat)
    requires PlantInv(p) && i < |p.inv| && p.line.current[i] != 0 && p.inv[i].waiting.None?
    ensures p.line.current[i] == p.line.m.active && p.line.m.last.None?
    ensures p.line.current[i] !in p.line.m.blocks
  {
    var s := p.line;
    var t := s.current[i];
    assert Expecting(s.m, t);
    if t in s.m.blocks {
      var c := s.m.blocks[t][0];
      assert BlockShape(s.m.blocks[t], t);
      MovingIsUnanswered(s, c);
    }
  }

  // ---------------------------------------------------------------- every step keeps the invariant

  lemma StartInv(n: nat)
    ensures PlantInv(Start(n))
  {
    InitialInv(n);
  }

  /** The command an inverter issues next, as the line sees it. */
  lemma IssuedByInverter(p: Plant, step: PlantStep)
    requires PlantInv(p) && Possible(p, step) && step.RunInverter? && Chosen(p, step).Use?
    ensures var a := Chosen(p, step);
            var (c, s1) := Drawn(p.line, step.i, a.api, a.hint);
            && Enabled(p.line, Issue(step.i, a.api, a.hint)) && AssertsHold(p.line, Issue(step.i, a.api, a.hint))
            && (c.hint == Request ==> c.api == Send && c.ticket > p.line.m.ticketCnt)
            && (c.hint == Cease ==> c.api in {Receive, Noop} && c.ticket == p.line.m.active && c.ticket != 0)
            && (c.hint == Plain <==> c.ticket == 0)
            && s1.current[step.i] == (if c.hint == Request then c.ticket else 0)
            && (a.next == WaitSent <==> c.hint == Request)
            && (a.next == Init ==> false)
  {
    var a := Chosen(p, step);
    AssertSafe(p.line, Issue(step.i, a.api, a.hint));
    DrawnIsExpected(p.line, Issue(step.i, a.api, a.hint));
    if p.line.current[step.i] != 0 { OwnTurn(p, step.i); }
  }

  lemma ScheduleKeeps(p: Plant, step: PlantStep)
    requires PlantInv(p) && Possible(p, step) && step.RunInverter? && !Chosen(p, step).Use?
    ensures PlantInv(PlantNext(p, step))
  {
    hide Inv, Pairs, SingleSends;
    var p' := PlantNext(p, step);
    assert p'.line == p.line;
  }

  lemma PairsExtend(log: seq<Forward>, m: Master, f: Forward)
    requires Pairs(log) && Frontier(m, log)
    requires f.cmd.hint == Request ==> f.cmd.api == Send && m.active == 0
    requires f.cmd.hint == Cease ==> f.cmd.api in {Receive, Noop} && m.active == f.cmd.ticket != 0 && m.last.None?
    requires f.cmd.hint == Plain ==> m.active == 0
    ensures Pairs(log + [f])
  {
    var all := log + [f];
    assert forall i | 0 <= i < |all| :: all[i] == if i < |log| then log[i] else f;
  }

  lemma HandleKeepsPairs(m: Master, log: seq<Forward>, c: Command)
    requires MayHandle(m, c) && SingleSends(m) && Pairs(log) && Frontier(m, log)
    requires c.hint == Request ==> c.api == Send && c.ticket != 0 && c.ticket != m.active && c.ticket !in m.blocks
    requires c.hint == Cease ==> c.api in {Receive, Noop} && c.ticket == m.active != 0 && m.last.None?
    requires c.hint == Plain <==> c.ticket == 0
    ensures var (m', f) := HandleAtomicBlock(m, c);
            SingleSends(m') && Pairs(if f.Some? then log + [f.value] else log)
  {
    var f := HandleAtomicBlock(m, c).1;
    if f.Some? { PairsExtend(log, m, f.value); }
  }

  lemma DrawnFrontier(m: Master, m1: Master, log: seq<Forward>)
    requires Queues(m) && Frontier(m, log) && SingleSends(m) && m.ticketCnt <= m1.ticketCnt
    requires m1 == m.(ticketCnt := m1.ticketCnt)
    ensures Frontier(m1, log) && SingleSends(m1) && m.active <= m.ticketCnt && forall t <- m.blocks :: t <= m.ticketCnt
  {
  }

  lemma UseKeepsPairs(p: Plant, step: PlantStep)
    requires PlantInv(p) && Possible(p, step) && step.RunInverter? && Chosen(p, step).Use?
    ensures var a := Chosen(p, step);
            var s' := Next(p.line, Issue(step.i, a.api, a.hint));
            SingleSends(s'.m) && Pairs(s'.log)
  {
    var a := Chosen(p, step);
    var (c, s1) := Drawn(p.line, step.i, a.api, a.hint);
    IssuedByInverter(p, step);
    DrawnFrontier(p.line.m, s1.m, p.line.log);
    HandleKeepsPairs(s1.m, p.line.log, c);
  }

  lemma UseKeepsLine(p: Plant, step: PlantStep)
    requires PlantInv(p) && Possible(p, step) && step.RunInverter? && Chosen(p, step).Use?
    ensures var p' := PlantNext(p, step);
            Inv(p'.line) && SingleSends(p'.line.m) && Pairs(p'.line.log)
  {
    StepKeeps(p.line, LineStep(p, step).value);
    UseKeepsPairs(p, step);
  }

  lemma UseKeepsInverters(p: Plant, step: PlantStep)
    requires PlantInv(p) && Possible(p, step) && step.RunInverter? && Chosen(p, step).Use?
    ensures var p' := PlantNext(p, step);
            Outstanding(p') && Phases(p') && TicketHeld(p')
  {
    hide Inv, Next, Pairs, SingleSends;
    var a := Chosen(p, step);
    var (c, s1) := Drawn(p.line, step.i, a.api, a.hint);
    IssuedByInverter(p, step);
    IssueStep(p.line, Issue(step.i, a.api, a.hint));
    NotAnsweredBefore(p.line, c);
    UseKeepsWaiting(p, PlantNext(p, step), step.i, a.next, c);
  }

  /** What issuing a command changes for the callers. */
  lemma IssueStep(s: System, step: Step)
    requires step.Issue? && Enabled(s, step) && AssertsHold(s, step)
    ensures var (c, s1) := Drawn(s, step.slave, step.api, step.hint);
            var s' := Next(s, step);
            && s'.answered == s.answered && s'.issued == s.issued + [c] && s'.current == s1.current
            && c.id == |s.issued| && c.slave == step.slave
            && s1.current == s.current[step.slave := s1.current[step.slave]]
            && (c.hint == Request ==> s1.current[step.slave] == c.ticket)
  {
  }

  lemma NotAnsweredBefore(s: System, c: Command)
    requires Inv(s) && c.id >= |s.issued|
    ensures c !in FirstOf(s.answered)
  {
    hide Inv;
    if c in FirstOf(s.answered) {
      var k :| 0 <= k < |s.answered| && FirstOf(s.answered)[k] == c;
      AnsweredWasIssued(s, k);
    }
  }

  lemma UseKeepsWaiting(p: Plant, p': Plant, i: nat, next: Code, c: Command)
    requires Outstanding(p) && Phases(p) && TicketHeld(p)
    requires i < |p.inv| && c.id == |p.line.issued| && c.slave == i && Runnable(p.inv[i])
    requires p'.line.answered == p.line.answered && p'.line.issued == p.line.issued + [c]
    requires p'.line.current == p.line.current[i := if c.hint == Request then c.ticket else 0]
    requires (next == WaitSent <==> c.hint == Request) && next != Init && (c.hint == Request ==> c.ticket != 0)
    requires c !in FirstOf(p.line.answered)
    requires p'.inv == p.inv[i := Inverter(next, Some(|p.line.issued|), 0, false)]
    ensures Outstanding(p') && Phases(p') && TicketHeld(p')
  {
    hide FirstOf;
    forall k | 0 <= k < |p'.line.issued|
      ensures p'.line.issued[k].slave < |p'.inv|
      ensures p'.line.issued[k] !in FirstOf(p'.line.answered) <==> p'.inv[p'.line.issued[k].slave].waiting == Some(k)
    {
      if k < |p.line.issued| { assert p'.line.issued[k] == p.line.issued[k]; }
    }
  }

  lemma AnsweredWasIssued(s: System, k: nat)
    requires Inv(s) && k < |s.answered|
    ensures s.answered[k].0.id < |s.issued| && s.issued[s.answered[k].0.id] == s.answered[k].0
  {
    var c := s.answered[k].0;
    assert s.answered[k] in multiset(s.answered) && s.answered[k] in multiset(s.replies);
    var r :| 0 <= r < |s.replies| && s.replies[r] == s.answered[k];
    assert FirstOf(s.replies)[r] == c;
    assert c in multiset(FirstOf(s.replies)) && c in multiset(Cmds(s.log)) && c in multiset(s.issued);
    var i :| 0 <= i < |s.issued| && s.issued[i] == c;
  }

  /** Answering one moving command wakes exactly its inverter. */
  lemma WakeKeeps(p: Plant, line: System, c: Command, result: int)
    requires PlantInv(p) && Moving(p.line, c)
    requires line.answered == p.line.answered + [(c, result)] && line.issued == p.line.issued
    requires line.current == p.line.current
    ensures var p' := Plant(line, Wake(p.inv, c, result));
            Outstanding(p') && Phases(p') && TicketHeld(p')
  {
    var p' := Plant(line, Wake(p.inv, c, result));
    MovingIsUnanswered(p.line, c);
    assert FirstOf(line.answered) == FirstOf(p.line.answered) + [c];
    assert p.inv[c.slave].waiting == Some(c.id);
    forall k | 0 <= k < |line.issued|
      ensures line.issued[k] !in FirstOf(line.answered) <==> p'.inv[line.issued[k].slave].waiting == Some(k)
    {
      assert line.issued[k] == c <==> k == c.id by { assert p.line.issued[k].id == k; }
    }
  }

  lemma ReplyStep(s: System, k: nat, result: int)
    requires k < |s.wire|
    ensures var s' := Next(s, Reply(k, result));
            && s'.m == s.m && s'.log == s.log && s'.current == s.current && s'.issued == s.issued
            && s'.answered == (if s.wire[k].toMaster then s.answered else s.answered + [(s.wire[k].cmd, result)])
    ensures s.wire[k].cmd in Cmds(s.wire)
  {
    assert Cmds(s.wire)[k] == s.wire[k].cmd;
  }

  lemma ReplyKeepsPlant(p: Plant, step: PlantStep)
    requires PlantInv(p) && Possible(p, step) && step.LineReply?
    ensures PlantInv(PlantNext(p, step))
  {
    var f := p.line.wire[step.k];
    var p' := PlantNext(p, step);
    StepKeeps(p.line, Reply(step.k, step.result));
    ReplyStep(p.line, step.k, step.result);
    if !f.toMaster {
      WakeKeeps(p, p'.line, f.cmd, step.result);
    } else {
      SameForInverters(p, p'.line);
    }
  }

  lemma SameForInverters(p: Plant, line: System)
    requires Outstanding(p) && Phases(p) && TicketHeld(p)
    requires line.answered == p.line.answered && line.issued == p.line.issued && line.current == p.line.current
    ensures var p' := Plant(line, p.inv); Outstanding(p') && Phases(p') && TicketHeld(p')
  {
  }

  lemma PlainKeepsPairs(log: seq<Forward>, w: seq<Forward>)
    requires Pairs(log) && (log == [] || log[|log| - 1].cmd.hint == Cease)
    requires forall i | 0 <= i < |w| :: w[i].cmd.hint == Plain
    ensures Pairs(log + w) && (log + w == [] || (log + w)[|log + w| - 1].cmd.hint != Request)
  {
    var all := log + w;
    assert forall i | 0 <= i < |all| :: all[i] == if i < |log| then log[i] else w[i - |log|];
  }

  lemma SendKeepsPairs(log: seq<Forward>, f: Forward)
    requires Pairs(log) && (log == [] || log[|log| - 1].cmd.hint != Request)
    requires f.cmd.hint == Request && f.cmd.api == Send
    ensures Pairs(log + [f])
  {
    var all := log + [f];
    assert forall i | 0 <= i < |all| :: all[i] == if i < |log| then log[i] else f;
  }

  lemma EndKeepsPairs(m: Master, log: seq<Forward>)
    requires MayEnd(m) && Queues(m) && Frontier(m, log) && SingleSends(m) && Pairs(log)
    ensures var (m', fs) := EndOfBlock(m); SingleSends(m') && Pairs(log + fs)
  {
    var (m', fs) := EndOfBlock(m);
    var w := Wrap(m.plain);
    forall i | 0 <= i < |w| ensures w[i].cmd.hint == Plain { assert m.plain[i] in m.plain; }
    PlainKeepsPairs(log, w);
    if m.blocks.Keys != {} {
      var t := MinKey(m.blocks.Keys);
      assert t in m.blocks;
      var f := Forward(m.blocks[t][0], false);
      assert Wrap(m.blocks[t][..0]) == [];
      SendKeepsPairs(log + w, f);
      assert log + fs == log + w + [f];
    }
  }

  lemma EndStep(s: System)
    requires s.ended != [] && MayEnd(s.m) && Diverted(s)
    ensures var s' := Next(s, RunEndOfBlock);
            && s'.m == EndOfBlock(s.m).0 && s'.log == s.log + EndOfBlock(s.m).1
            && s'.current == s.current && s'.issued == s.issued
            && s'.answered == s.answered + [(s.m.last.value, s.ended[0].1)]
    ensures s.m.last.value in FirstOf(s.ended)
  {
    assert s.ended[0] in s.ended;
    assert FirstOf(s.ended)[0] == s.m.last.value;
  }

  lemma EndKeepsPlant(p: Plant)
    requires PlantInv(p) && p.line.ended != []
    ensures PlantInv(PlantNext(p, LineEndOfBlock))
  {
    hide Tickets, Ordered, Conserved, Outstanding, Phases, TicketHeld, Pairs, SingleSends;
    var s := p.line;
    AssertSafe(s, RunEndOfBlock);
    StepKeeps(s, RunEndOfBlock);
    EndKeepsPairs(s.m, s.log);
    EndStep(s);
    WakeKeeps(p, Next(s, RunEndOfBlock), s.m.last.value, s.ended[0].1);
  }

  lemma PlantStepKeeps(p: Plant, step: PlantStep)
    requires PlantInv(p)
    ensures PlantInv(PlantNext(p, step))
  {
    if Possible(p, step) {
      match step
      case RunInverter(_, _, _, _, _) =>
        if Chosen(p, step).Use? {
          UseKeepsLine(p, step);
          UseKeepsInverters(p, step);
        } else {
          ScheduleKeeps(p, step);
        }
      case LineReply(_, _) => ReplyKeepsPlant(p, step);
      case LineEndOfBlock => EndKeepsPlant(p);
    }
  }

  lemma {:induction false} PlantRunKeeps(n: nat, steps: seq<PlantStep>)
    ensures PlantInv(PlantRun(Start(n), steps))
    decreases |steps|
  {
    if steps == [] {
      StartInv(n);
    } else {
      PlantRunKeeps(n, steps[..|steps| - 1]);
      PlantStepKeeps(PlantRun(Start(n), steps[..|steps| - 1]), steps[|steps| - 1]);
    }
  }

  // ---------------------------------------------------------------- what the inverters get

  /** In every run the ticketed commands on the line are pairs by one inverter: a Send, directly
      followed by the Receive or Noop that ends its block. */
  lemma TelegramsComeInPairs(n: nat, steps: seq<PlantStep>, i: nat)
    requires i < |PlantRun(Start(n), steps).line.log|
    ensures var log := PlantRun(Start(n), steps).line.log;
            && (log[i].cmd.hint == Request ==>
                  && log[i].cmd.api == Send
                  && (i + 1 < |log| ==>
                        && log[i + 1].cmd.slave == log[i].cmd.slave && log[i + 1].cmd.ticket == log[i].cmd.ticket
                        && log[i + 1].cmd.hint == Cease && log[i + 1].cmd.api in {Receive, Noop}))
            && (log[i].cmd.hint == Cease ==>
                  && i > 0
                  && log[i - 1].cmd.hint == Request && log[i - 1].cmd.slave == log[i].cmd.slave)
  {
    hide PlantRun, Inv, Outstanding, Phases, TicketHeld, SingleSends;
    PlantRunKeeps(n, steps);
    var s := PlantRun(Start(n), steps).line;
    LoggedIsOwned(s, i);
    if s.log[i].cmd.hint == Request && i + 1 < |s.log| { LoggedIsOwned(s, i + 1); }
    if s.log[i].cmd.hint == Cease { LoggedIsOwned(s, i - 1); }
  }

  /** The line never deadlocks: while some inverter has not been stopped, an inverter can run,
      the connection owes a reply, or an end of block waits in the scheduler. */
  lemma NeverStuck(n: nat, steps: seq<PlantStep>, i: nat) returns (step: PlantStep)
    requires var p := PlantRun(Start(n), steps); i < |p.inv| && !p.inv[i].stopped
    ensures Possible(PlantRun(Start(n), steps), step)
  {
    PlantRunKeeps(n, steps);
    var p := PlantRun(Start(n), steps);
    var s := p.line;
    if s.wire != [] {
      step := LineReply(0, 0);
    } else if s.ended != [] {
      step := LineEndOfBlock;
    } else if j :| 0 <= j < |p.inv| && Runnable(p.inv[j]) {
      step := RunInverter(j, false, false, 0, false);
    } else {
      assert s.m.last.None?;
      UnansweredIsMoving(s, p.inv[i].waiting.value);
      assert s.m.active != 0;
      var t := s.m.active;
      assert Expecting(s.m, t);
      var j := s.owner[t - 1];
      assert s.current[j] == t;
      UnansweredIsMoving(s, p.inv[j].waiting.value);
      assert false;
      step := LineEndOfBlock;
    }
  }
}
