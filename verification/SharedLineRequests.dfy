/** What the slaves ask for, and what becomes of it on the line: stated on the requests and on the
    log of any run alone. */
module SharedLineRequests {
  import opened Prelude
  import opened SharedLine
  import opened SharedLineRuns

  /** A request by one of n slaves. */
  predicate Asks(n: nat, step: Step) {
    step.Issue? && step.slave < n && !(step.api == Receive && step.hint == Plain)
  }

  /** The requests of a run, in order. */
  function Requests(n: nat, steps: seq<Step>): (r: seq<Step>)
    ensures forall k | 0 <= k < |r| :: r[k].Issue?
  {
    if steps == [] then []
    else
      var init, last := steps[..|steps| - 1], steps[|steps| - 1];
      Requests(n, init) + if Asks(n, last) then [last] else []
  }

  /** The command does what was asked for; only the first slave, the master's own, really disconnects. */
  predicate AsAsked(c: Command, r: Step)
    requires r.Issue?
  {
    && c.slave == r.slave && c.hint == r.hint
    && (c.api == Disconnect <==> r.api == Disconnect && r.slave == 0)
    && (r.api == Disconnect && r.slave != 0 ==> c.api == Noop)
    && (r.api != Disconnect ==> c.api == r.api)
  }

  /** The ticket of the block that slave i is in: that of its last command with a hint, if it was a request. */
  function Held(issued: seq<Command>, i: nat): nat {
    if issued == [] then 0
    else
      var last := issued[|issued| - 1];
      if last.slave == i && last.hint != Plain then (if last.hint == Request then last.ticket else 0)
      else Held(issued[..|issued| - 1], i)
  }

  /** A command without hint has no ticket; one inside a block has the ticket of the block; one that
      begins a block has a ticket larger than any before. */
  predicate TicketFits(before: seq<Command>, c: Command) {
    if c.hint == Plain then c.ticket == 0
    else if Held(before, c.slave) != 0 then c.ticket == Held(before, c.slave)
    else c.ticket > 0 && forall j | 0 <= j < |before| :: before[j].ticket < c.ticket
  }

  /** The commands with ticket t, or with none for 0. */
  function Of(cs: seq<Command>, t: nat): seq<Command> {
    if cs == [] then []
    else
      var last := cs[|cs| - 1];
      Of(cs[..|cs| - 1], t) + if last.ticket == t then [last] else []
  }

  /** The commands with ticket t, or with none for 0, that wait at the master. */
  function Queue(m: Master, t: nat): seq<Command> {
    if t == 0 then m.plain else if t in m.blocks then m.blocks[t] else []
  }

  // ---------------------------------------------------------------- requests and tickets

  predicate Faithful(n: nat, rs: seq<Step>, s: System) {
    && |s.current| == n && |s.issued| == |rs|
    && (forall k | 0 <= k < |rs| :: rs[k].Issue? && AsAsked(s.issued[k], rs[k]))
    && (forall k | 0 <= k < |rs| :: s.issued[k].id == k && TicketFits(s.issued[..k], s.issued[k]))
    && (forall k | 0 <= k < |rs| :: s.issued[k].ticket <= s.m.ticketCnt)
    && (forall i | 0 <= i < n :: s.current[i] == Held(s.issued, i))
  }

  lemma IssueIsFaithful(n: nat, rs: seq<Step>, s: System, step: Step)
    requires Faithful(n, rs, s) && Asks(n, step) && Enabled(s, step) && AssertsHold(s, step)
    ensures Faithful(n, rs + [step], Next(s, step))
  {
    hide HandleAtomicBlock, MayHandle, Next, AsAsked, TicketFits, Drawn, Held;
    var s', all := Next(s, step), rs + [step];
    IssueExtends(s, step);
    DrawnAsAsked(n, rs, s, step);
    forall k | 0 <= k < |all|
      ensures AsAsked(s'.issued[k], all[k]) && s'.issued[k].id == k && TicketFits(s'.issued[..k], s'.issued[k])
      ensures s'.issued[k].ticket <= s'.m.ticketCnt
    {
      assert s'.issued[..k] == s.issued[..k];
      assert s.issued[..|s.issued|] == s.issued;
    }
  }

  lemma DrawnAsAsked(n: nat, rs: seq<Step>, s: System, step: Step)
    requires Faithful(n, rs, s) && Asks(n, step)
    ensures var (c, s1) := Drawn(s, step.slave, step.api, step.hint);
            && AsAsked(c, step) && c.id == |rs| && TicketFits(s.issued, c) && c.ticket <= s1.m.ticketCnt
            && s.m.ticketCnt <= s1.m.ticketCnt && |s1.current| == n
            && forall i | 0 <= i < n :: s1.current[i] == Held(s.issued + [c], i)
  {
    hide AsAsked;
    HeldWasIssued(s.issued, step.slave);
    var (c, s1) := Drawn(s, step.slave, step.api, step.hint);
    assert (s.issued + [c])[..|s.issued|] == s.issued;
    DrawnApi(s, step);
  }

  lemma DrawnApi(s: System, step: Step)
    requires step.Issue? && step.slave < |s.current|
    ensures AsAsked(Drawn(s, step.slave, step.api, step.hint).0, step)
  {
  }

  lemma {:induction false} HeldWasIssued(issued: seq<Command>, i: nat)
    ensures Held(issued, i) != 0 ==> exists k :: 0 <= k < |issued| && issued[k].ticket == Held(issued, i)
  {
    if issued != [] { HeldWasIssued(issued[..|issued| - 1], i); }
  }

  lemma IssueExtends(s: System, step: Step)
    requires step.Issue? && Enabled(s, step) && AssertsHold(s, step)
    ensures var (c, s1) := Drawn(s, step.slave, step.api, step.hint);
            var s' := Next(s, step);
            && s'.issued == s1.issued == s.issued + [c] && s'.current == s1.current && s'.m.ticketCnt == s1.m.ticketCnt
            && var (m', f) := HandleAtomicBlock(s1.m, c);
            s'.m == m' && s'.log == if f.Some? then s.log + [f.value] else s.log
  {
  }

  lemma {:induction false} RunIsFaithful(n: nat, steps: seq<Step>)
    ensures Faithful(n, Requests(n, steps), Run(Initial(n), steps))
    decreases |steps|
  {
    hide Faithful, AssertsHold, Inv, Apply;
    if steps == [] {
      NothingAsked(n);
    } else {
      var init, last := steps[..|steps| - 1], steps[|steps| - 1];
      RunIsFaithful(n, init);
      RunKeeps(n, init);
      var s := Run(Initial(n), init);
      SlavesOf(n, Requests(n, init), s);
      if Enabled(s, last) { AssertSafe(s, last); }
      if Asks(n, last) {
        IssueIsFaithful(n, Requests(n, init), s, last);
      } else {
        assert Requests(n, steps) == Requests(n, init);
        OthersAreFaithful(n, Requests(n, init), s, last);
      }
    }
  }

  lemma NothingAsked(n: nat)
    ensures Faithful(n, [], Initial(n))
  {
  }

  lemma SlavesOf(n: nat, rs: seq<Step>, s: System)
    requires Faithful(n, rs, s)
    ensures |s.current| == n
  {
  }

  lemma OthersAreFaithful(n: nat, rs: seq<Step>, s: System, step: Step)
    requires Faithful(n, rs, s) && !Asks(n, step)
    ensures Faithful(n, rs, Next(s, step))
  {
    hide MinKey, MayHandle;
    var s' := Next(s, step);
    assert s'.issued == s.issued && s'.current == s.current && s'.m.ticketCnt == s.m.ticketCnt;
  }

  /** In every run: each request makes exactly one command, in the order of the requests, which does
      what was asked for, except that a slave other than the first does nothing instead of
      disconnecting; its ticket is that of the block its slave is in, new for a new block, and
      none without a hint. */
  lemma IssuedAsAsked(n: nat, steps: seq<Step>, k: nat)
    requires k < |Requests(n, steps)|
    ensures var issued := Run(Initial(n), steps).issued;
            && |issued| == |Requests(n, steps)|
            && issued[k].id == k && AsAsked(issued[k], Requests(n, steps)[k]) && TicketFits(issued[..k], issued[k])
  {
    hide Run, Requests, AsAsked, TicketFits;
    RunIsFaithful(n, steps);
  }

  /** What reaches the connection was asked for; a disconnect was asked for by the first slave. */
  lemma ForwardedAsAsked(n: nat, steps: seq<Step>, k: nat)
    requires k < |Run(Initial(n), steps).log|
    ensures var c := Run(Initial(n), steps).log[k].cmd;
            && c.id < |Requests(n, steps)| && AsAsked(c, Requests(n, steps)[c.id])
            && (c.api == Disconnect ==> c.slave == 0)
  {
    hide Run, Requests, TicketFits;
    RunKeeps(n, steps);
    RunIsFaithful(n, steps);
    var s := Run(Initial(n), steps);
    LoggedWasIssued(s, k);
  }

  lemma LoggedWasIssued(s: System, k: nat)
    requires Conserved(s) && k < |s.log|
    ensures s.log[k].cmd.id < |s.issued| && s.issued[s.log[k].cmd.id] == s.log[k].cmd
  {
    var c := s.log[k].cmd;
    assert c == Cmds(s.log)[k];
    assert c in multiset(Cmds(s.log)) && c in multiset(s.issued);
    var j :| 0 <= j < |s.issued| && s.issued[j] == c;
  }

  // ---------------------------------------------------------------- order

  lemma {:induction false} OfAppend(a: seq<Command>, b: seq<Command>, t: nat)
    ensures Of(a + b, t) == Of(a, t) + Of(b, t)
  {
    if b == [] {
      assert a + b == a;
    } else {
      assert (a + b)[..|a + b| - 1] == a + b[..|b| - 1];
      OfAppend(a, b[..|b| - 1], t);
    }
  }

  lemma {:induction false} OfAll(cs: seq<Command>, u: nat, t: nat)
    requires forall i | 0 <= i < |cs| :: cs[i].ticket == u
    ensures Of(cs, t) == if u == t then cs else []
  {
    if cs != [] {
      OfAll(cs[..|cs| - 1], u, t);
      assert cs == cs[..|cs| - 1] + [cs[|cs| - 1]];
    }
  }

  lemma OfOne(c: Command, t: nat)
    ensures Of([c], t) == if c.ticket == t then [c] else []
  {
    OfAll([c], c.ticket, t);
  }

  /** Each queue holds the end of what was issued for it; the rest has been forwarded, in order. */
  ghost predicate InOrder(m: Master, log: seq<Forward>, issued: seq<Command>, t: nat) {
    Of(Cmds(log), t) + Queue(m, t) == Of(issued, t)
  }

  lemma Regroup(a: seq<Command>, b: seq<Command>, c: seq<Command>)
    ensures (a + b) + c == a + (b + c)
  {
  }

  /** Handling a command: forwarded only when nothing waits in its queue. */
  lemma HandleQueues(m: Master, c: Command, t: nat)
    requires Queues(m) && MayHandle(m, c)
    ensures var (m', f) := HandleAtomicBlock(m, c);
            && (f.Some? ==> f.value.cmd == c && Queue(m, c.ticket) == [])
            && Queue(m', t) == Queue(m, t) + if f.None? && c.ticket == t then [c] else []
  {
    assert c.ticket in m.blocks ==> m.blocks[c.ticket] != [] by {
      if c.ticket in m.blocks { assert BlockShape(m.blocks[c.ticket], c.ticket); }
    }
  }

  lemma HandleKeepsInOrder(m: Master, log: seq<Forward>, issued: seq<Command>, c: Command, t: nat)
    requires Queues(m) && MayHandle(m, c) && InOrder(m, log, issued, t)
    ensures var (m', f) := HandleAtomicBlock(m, c);
            InOrder(m', if f.Some? then log + [f.value] else log, issued + [c], t)
  {
    hide Queues, MayHandle, HandleAtomicBlock, Of, Queue;
    var (m', f) := HandleAtomicBlock(m, c);
    HandleQueues(m, c, t);
    OfAppend(issued, [c], t);
    OfOne(c, t);
    if f.Some? {
      assert Cmds(log + [f.value]) == Cmds(log) + [c];
      OfAppend(Cmds(log), [c], t);
    } else {
      Regroup(Of(Cmds(log), t), Queue(m, t), if c.ticket == t then [c] else []);
    }
  }

  /** An end of block forwards whole queues. */
  lemma EndQueues(m: Master, t: nat)
    requires Queues(m) && MayEnd(m)
    ensures var (m', fs) := EndOfBlock(m); Of(Cmds(fs), t) + Queue(m', t) == Queue(m, t)
  {
    hide Of;
    var (m', fs) := EndOfBlock(m);
    OfAll(m.plain, 0, t);
    if m.blocks.Keys == {} {
      assert Cmds(fs) == m.plain;
    } else {
      var u := MinKey(m.blocks.Keys);
      var q := m.blocks[u];
      assert BlockShape(q, u);
      assert q == q[..|q| - 1] + [q[|q| - 1]];
      assert Cmds(fs) == m.plain + q;
      OfAll(q, u, t);
      OfAppend(m.plain, q, t);
    }
  }

  lemma EndKeepsInOrder(m: Master, log: seq<Forward>, issued: seq<Command>, t: nat)
    requires Queues(m) && MayEnd(m) && InOrder(m, log, issued, t)
    ensures var (m', fs) := EndOfBlock(m); InOrder(m', log + fs, issued, t)
  {
    hide EndOfBlock, Of, Queue, Queues, MayEnd;
    var (m', fs) := EndOfBlock(m);
    EndQueues(m, t);
    assert Cmds(log + fs) == Cmds(log) + Cmds(fs);
    OfAppend(Cmds(log), Cmds(fs), t);
    Regroup(Of(Cmds(log), t), Of(Cmds(fs), t), Queue(m', t));
  }

  lemma SameQueue(m: Master, cnt: nat, t: nat)
    ensures Queue(m.(ticketCnt := cnt), t) == Queue(m, t)
  {
  }

  lemma StepKeepsInOrder(s: System, step: Step, t: nat)
    requires Inv(s) && Enabled(s, step) && AssertsHold(s, step) && InOrder(s.m, s.log, s.issued, t)
    ensures var s' := Next(s, step); InOrder(s'.m, s'.log, s'.issued, t)
  {
    hide InOrder, MayHandle, MayEnd, Tickets, Ordered, Frontier, Diverted, Conserved, HandleAtomicBlock, EndOfBlock;
    match step
    case Issue(i, api, hint) =>
      var (c, s1) := Drawn(s, i, api, hint);
      DrawKeepsQueues(s, step);
      IssueExtends(s, step);
      DrawnInOrder(s, s1, t);
      HandleKeepsInOrder(s1.m, s.log, s.issued, c, t);
    case Reply(_, _) =>
    case RunEndOfBlock => EndKeepsInOrder(s.m, s.log, s.issued, t);
  }

  lemma DrawnInOrder(s: System, s1: System, t: nat)
    requires InOrder(s.m, s.log, s.issued, t) && s1.m == s.m.(ticketCnt := s1.m.ticketCnt)
    ensures InOrder(s1.m, s.log, s.issued, t)
  {
    SameQueue(s.m, s1.m.ticketCnt, t);
  }

  /** In every run, commands of one block, and commands without ticket, are forwarded in the order in
      which they were issued: what was forwarded, followed by what waits, is what was issued. */
  lemma {:induction false} ForwardedInOrder(n: nat, steps: seq<Step>, t: nat)
    ensures var s := Run(Initial(n), steps); Of(Cmds(s.log), t) + Queue(s.m, t) == Of(s.issued, t)
    decreases |steps|
  {
    hide Inv, AssertsHold, Of, Queue, Enabled;
    if steps == [] {
      NothingForwarded(n, t);
    } else {
      var init, last := steps[..|steps| - 1], steps[|steps| - 1];
      ForwardedInOrder(n, init, t);
      RunKeeps(n, init);
      var s := Run(Initial(n), init);
      if Enabled(s, last) {
        AssertSafe(s, last);
        StepKeepsInOrder(s, last, t);
      }
    }
  }

  lemma NothingForwarded(n: nat, t: nat)
    ensures Of(Cmds(Initial(n).log), t) + Queue(Initial(n).m, t) == Of(Initial(n).issued, t)
  {
    assert Cmds([]) == [];
  }
}
