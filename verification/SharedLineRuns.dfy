/** What every run of the shared line keeps, for any number of slaves issuing any
    commands in any order, and a connection that replies in any order. */
module SharedLineRuns {
  import opened Prelude
  import opened SharedLine

  // ---------------------------------------------------------------- invariants

  predicate Open(q: seq<Command>) { q != [] && q[|q| - 1].hint == Request }

  /** One ticket's commands, in order: requests, and possibly a final cease. */
  predicate BlockShape(q: seq<Command>, t: nat) {
    && q != []
    && (forall i | 0 <= i < |q| :: q[i].ticket == t && q[i].hint != Plain)
    && (forall i | 0 <= i < |q| - 1 :: q[i].hint == Request)
  }

  predicate Queues(m: Master) {
    && m.active <= m.ticketCnt
    && (forall t <- m.blocks :: 0 < m.active < t <= m.ticketCnt && BlockShape(m.blocks[t], t))
    && (forall c <- m.plain :: c.ticket == 0 && c.hint == Plain)
    && (m.active == 0 ==> m.last.None? && m.plain == [] && m.blocks.Keys == {})
    && (m.last.Some? ==> m.last.value.ticket == m.active && m.last.value.hint == Cease)
  }

  /** The blocks that still expect commands: the active one, and queued ones without a cease. */
  predicate Expecting(m: Master, t: nat) {
    || (t == m.active && t != 0 && m.last.None?)
    || (t in m.blocks && Open(m.blocks[t]))
  }

  predicate Tickets(s: System) {
    && |s.owner| == s.m.ticketCnt
    && (forall k | 0 <= k < |s.owner| :: s.owner[k] < |s.current|)
    && (forall i | 0 <= i < |s.current| && s.current[i] != 0 ::
          s.current[i] <= |s.owner| && s.owner[s.current[i] - 1] == i && Expecting(s.m, s.current[i]))
    && (forall t | 1 <= t <= |s.owner| && Expecting(s.m, t) :: s.current[s.owner[t - 1]] == t)
  }

  predicate Owned(s: System, c: Command) {
    && c.ticket <= |s.owner|
    && (c.hint == Plain <==> c.ticket == 0)
    && (c.ticket != 0 ==> c.slave == s.owner[c.ticket - 1])
  }

  /** Forwarding order: an unfinished block is continued by itself, tickets never go back. */
  ghost predicate Ordered(log: seq<Forward>) {
    && (forall i | 0 <= i < |log| - 1 && log[i].cmd.hint == Request :: log[i + 1].cmd.ticket == log[i].cmd.ticket)
    && (forall i, j | 0 <= i < j < |log| && log[i].cmd.ticket != 0 && log[j].cmd.ticket != 0 ::
          if log[i].cmd.hint == Cease then log[i].cmd.ticket < log[j].cmd.ticket
          else log[i].cmd.ticket <= log[j].cmd.ticket)
  }

  predicate Frontier(m: Master, log: seq<Forward>) {
    && (m.active == 0 ==> log == [] || log[|log| - 1].cmd.hint != Request)
    && (m.active != 0 ==>
          && log != []
          && log[|log| - 1].cmd.ticket == m.active
          && log[|log| - 1].cmd.hint == (if m.last.Some? then Cease else Request))
    && (forall i | 0 <= i < |log| :: log[i].cmd.ticket <= (if m.active != 0 then m.active else m.ticketCnt))
    && (forall i | 0 <= i < |log| :: log[i].toMaster == (log[i].cmd.hint == Cease))
  }

  function Substitutes(fs: seq<Forward>): nat {
    if fs == [] then 0 else Substitutes(fs[..|fs| - 1]) + (if fs[|fs| - 1].toMaster then 1 else 0)
  }

  /** One substitute is outstanding, on the wire or completed, exactly while last_atomic_cmd is set. */
  ghost predicate Diverted(s: System) {
    && Substitutes(s.wire) + |s.ended| == (if s.m.last.Some? then 1 else 0)
    && (forall f <- s.wire | f.toMaster :: Some(f.cmd) == s.m.last)
    && (forall e <- s.ended :: Some(e.0) == s.m.last)
  }

  /** All queued blocks, in ticket order. */
  ghost function Flatten(blocks: map<nat, seq<Command>>): seq<Command>
    decreases |blocks|
  {
    if blocks.Keys == {} then []
    else var t := MinKey(blocks.Keys); blocks[t] + Flatten(blocks - {t})
  }

  ghost function FirstOf(ps: seq<(Command, int)>): (cs: seq<Command>)
    ensures |cs| == |ps| && forall i | 0 <= i < |cs| :: cs[i] == ps[i].0
  {
    seq(|ps|, i requires 0 <= i < |ps| => ps[i].0)
  }

  /** Nothing is lost or doubled on the way in, ... */
  ghost predicate Inbound(m: Master, log: seq<Forward>, issued: seq<Command>) {
    multiset(Cmds(log)) + multiset(m.plain) + multiset(Flatten(m.blocks)) == multiset(issued)
  }

  /** ... over the wire, ... */
  ghost predicate OverTheWire(s: System) {
    multiset(FirstOf(s.replies)) + multiset(Cmds(s.wire)) == multiset(Cmds(s.log))
  }

  /** ... and on the way back. */
  ghost predicate Returned(s: System) {
    multiset(s.answered) + multiset(s.ended) == multiset(s.replies)
  }

  predicate Numbered(s: System) {
    forall k | 0 <= k < |s.issued| :: s.issued[k].id == k && Owned(s, s.issued[k])
  }

  ghost predicate Conserved(s: System) {
    Inbound(s.m, s.log, s.issued) && OverTheWire(s) && Returned(s) && Numbered(s)
  }

  ghost predicate Inv(s: System) {
    && Queues(s.m) && Tickets(s) && Ordered(s.log) && Frontier(s.m, s.log) && Diverted(s) && Conserved(s)
  }

  // ---------------------------------------------------------------- sequences and counts

  lemma {:induction false} SubstitutesAppend(a: seq<Forward>, b: seq<Forward>)
    ensures Substitutes(a + b) == Substitutes(a) + Substitutes(b)
  {
    if b == [] {
      assert a + b == a;
    } else {
      SubstitutesAppend(a, b[..|b| - 1]);
      assert (a + b)[..|a + b| - 1] == a + b[..|b| - 1];
    }
  }

  lemma {:induction false} NoSubstitutes(fs: seq<Forward>)
    requires forall i | 0 <= i < |fs| :: !fs[i].toMaster
    ensures Substitutes(fs) == 0
  {
    if fs != [] { NoSubstitutes(fs[..|fs| - 1]); }
  }

  lemma {:induction false} SubstituteCounted(fs: seq<Forward>, k: nat)
    requires k < |fs| && fs[k].toMaster
    ensures Substitutes(fs) >= 1
  {
    if k < |fs| - 1 { SubstituteCounted(fs[..|fs| - 1], k); }
  }

  lemma SubstitutesRemove(fs: seq<Forward>, k: nat)
    requires k < |fs|
    ensures Substitutes(fs[..k] + fs[k + 1..]) == Substitutes(fs) - (if fs[k].toMaster then 1 else 0)
  {
    assert fs == fs[..k] + ([fs[k]] + fs[k + 1..]);
    SubstitutesAppend(fs[..k], [fs[k]] + fs[k + 1..]);
    SubstitutesAppend([fs[k]], fs[k + 1..]);
    SubstitutesAppend(fs[..k], fs[k + 1..]);
    assert [fs[k]][..0] == [];
  }

  lemma CmdsAppend(a: seq<Forward>, b: seq<Forward>)
    ensures multiset(Cmds(a + b)) == multiset(Cmds(a)) + multiset(Cmds(b))
  {
    assert Cmds(a + b) == Cmds(a) + Cmds(b);
  }

  lemma CmdsRemove(a: seq<Forward>, k: nat)
    requires k < |a|
    ensures multiset(Cmds(a[..k] + a[k + 1..])) == multiset(Cmds(a)) - multiset{a[k].cmd}
  {
    var cs := Cmds(a);
    assert Cmds(a[..k] + a[k + 1..]) == cs[..k] + cs[k + 1..];
    assert cs == cs[..k] + [cs[k]] + cs[k + 1..];
  }

  /** Appending to one queue adds exactly that command to the queued commands. */
  lemma {:induction false} FlattenPush(blocks: map<nat, seq<Command>>, t: nat, c: Command)
    ensures var q := if t in blocks then blocks[t] else [];
            multiset(Flatten(blocks[t := q + [c]])) == multiset(Flatten(blocks)) + multiset{c}
    decreases |blocks|
  {
    var q := if t in blocks then blocks[t] else [];
    var more := blocks[t := q + [c]];
    assert more.Keys == blocks.Keys + {t};
    var least := MinKey(more.Keys);
    if least == t {
      if t in blocks {
        assert MinKey(blocks.Keys) in more.Keys && MinKey(blocks.Keys) == t;
        assert more - {t} == blocks - {t};
        assert Flatten(more) == (q + [c]) + Flatten(blocks - {t});
        assert Flatten(blocks) == q + Flatten(blocks - {t});
      } else {
        assert more - {t} == blocks;
        assert Flatten(more) == (q + [c]) + Flatten(blocks);
      }
    } else {
      assert least in blocks.Keys && MinKey(blocks.Keys) in more.Keys && MinKey(blocks.Keys) == least;
      assert more - {least} == (blocks - {least})[t := q + [c]];
      assert (blocks - {least}).Keys == blocks.Keys - {least};
      assert |blocks - {least}| < |blocks|;
      FlattenPush(blocks - {least}, t, c);
      assert (if t in blocks - {least} then (blocks - {least})[t] else []) == q;
    }
  }

  // ---------------------------------------------------------------- every step keeps the invariant

  lemma InitialInv(n: nat)
    ensures Inv(Initial(n))
  {
    assert Cmds([]) == [] && FirstOf([]) == [];
  }

  /** No assert of the source can fail in a state that satisfies the invariant. */
  lemma AssertSafe(s: System, step: Step)
    requires Inv(s) && Enabled(s, step)
    ensures AssertsHold(s, step)
  {
    match step
    case Issue(i, api, hint) =>
      if s.current[i] != 0 { assert Expecting(s.m, s.current[i]); }
    case Reply(_, _) =>
    case RunEndOfBlock =>
      assert s.ended[0] in s.ended;
      assert forall t <- s.m.blocks :: BlockShape(s.m.blocks[t], t);
  }

  lemma HandleKeepsQueues(m: Master, c: Command)
    requires Queues(m) && MayHandle(m, c) && (c.hint == Plain <==> c.ticket == 0) && c.ticket <= m.ticketCnt
    requires c.ticket != 0 && m.active != 0 && c.ticket != m.active ==> c.ticket > m.active
    requires c.ticket in m.blocks ==> Open(m.blocks[c.ticket])
    ensures Queues(HandleAtomicBlock(m, c).0)
  {
    var m' := HandleAtomicBlock(m, c).0;
    forall t <- m'.blocks ensures 0 < m'.active < t <= m'.ticketCnt && BlockShape(m'.blocks[t], t) {
      if t in m.blocks { assert BlockShape(m.blocks[t], t); }
    }
  }

  lemma QueuedBehindActive(m: Master, t: nat)
    requires Queues(m) && Expecting(m, t) && t != m.active
    ensures t in m.blocks && Open(m.blocks[t]) && m.active < t
  {
  }

  lemma IssueKeepsQueues(s: System, step: Step)
    requires Queues(s.m) && Tickets(s) && step.Issue? && Enabled(s, step) && AssertsHold(s, step)
    ensures Queues(Apply(s, step).m)
  {
    hide Tickets, BlockShape;
    var (c, s1) := Drawn(s, step.slave, step.api, step.hint);
    DrawnIsExpected(s, step);
    DrawKeepsQueues(s, step);
    if c.ticket <= s.m.ticketCnt && c.ticket != 0 && c.ticket != s.m.active { QueuedBehindActive(s.m, c.ticket); }
    HandleKeepsQueues(s1.m, c);
  }

  /** What a freshly issued command looks like to the master. */
  lemma DrawnIsExpected(s: System, step: Step)
    requires Queues(s.m) && Tickets(s) && step.Issue? && Enabled(s, step)
    ensures var (c, s1) := Drawn(s, step.slave, step.api, step.hint);
            && (c.hint == Plain <==> c.ticket == 0)
            && Owned(s1, c) && c.ticket <= s1.m.ticketCnt
            && (c.ticket != 0 ==> c.ticket > s.m.ticketCnt || Expecting(s.m, c.ticket))
            && (c.ticket != 0 && s.m.active == 0 ==> c.ticket == s.m.ticketCnt + 1)
            && (c.ticket != 0 && c.ticket == s.m.active ==> s.m.last.None?)
  {
    if s.current[step.slave] != 0 { assert Expecting(s.m, s.current[step.slave]); }
  }

  /** Only the ticket of the issued command starts or stops expecting more. */
  lemma ExpectingAfterIssue(m: Master, c: Command)
    requires Queues(m) && MayHandle(m, c) && (c.hint == Plain <==> c.ticket == 0)
    requires c.ticket != 0 && c.ticket == m.active ==> m.last.None?
    ensures var m' := HandleAtomicBlock(m, c).0;
            && (forall t | t != c.ticket :: Expecting(m', t) == Expecting(m, t))
            && (c.ticket != 0 ==> (Expecting(m', c.ticket) <==> c.hint == Request))
            && m'.ticketCnt == m.ticketCnt && !Expecting(m', 0)
  {
    var m' := HandleAtomicBlock(m, c).0;
    assert m.active == 0 ==> m.blocks.Keys == {};
    assert c.ticket == m.active ==> c.ticket !in m.blocks;
  }

  lemma DrawKeepsQueues(s: System, step: Step)
    requires Queues(s.m) && step.Issue? && Enabled(s, step)
    ensures var s1 := Drawn(s, step.slave, step.api, step.hint).1;
            Queues(s1.m) && forall t :: Expecting(s1.m, t) == Expecting(s.m, t)
  {
  }

  lemma IssueKeepsTickets(s: System, step: Step)
    requires Queues(s.m) && Tickets(s) && step.Issue? && Enabled(s, step) && AssertsHold(s, step)
    ensures Tickets(Apply(s, step))
  {
    hide Queues, Expecting, HandleAtomicBlock, MayHandle;
    var s' := Apply(s, step);
    var (c, s1) := Drawn(s, step.slave, step.api, step.hint);
    DrawnIsExpected(s, step);
    DrawKeepsQueues(s, step);
    ExpectingAfterIssue(s1.m, c);
    TicketsMatch(s, s'.current, s'.owner, s'.m, c);
  }

  lemma TicketsMatch(s: System, current: seq<nat>, owner: seq<nat>, m: Master, c: Command)
    requires Tickets(s) && c.slave < |s.current| && m.ticketCnt == |owner|
    requires forall t | t != c.ticket :: Expecting(m, t) == Expecting(s.m, t)
    requires c.ticket == 0 ==> current == s.current && owner == s.owner
    requires c.ticket != 0 ==>
               && (Expecting(m, c.ticket) <==> c.hint == Request)
               && current == s.current[c.slave := if c.hint == Cease then 0 else c.ticket]
               && (if s.current[c.slave] == c.ticket then owner == s.owner
                   else s.current[c.slave] == 0 && c.ticket == |owner| && owner == s.owner + [c.slave])
               && c.hint != Plain
    requires !Expecting(m, 0)
    ensures Tickets(s.(m := m, current := current, owner := owner))
  {
    hide Expecting;
    forall k | 0 <= k < |current| && current[k] != 0
      ensures current[k] <= |owner| && owner[current[k] - 1] == k && Expecting(m, current[k])
    {
      if c.ticket == 0 || k != c.slave {
        assert Expecting(s.m, s.current[k]);
        assert s.current[k] != c.ticket;
      }
    }
    forall t | 1 <= t <= |owner| && Expecting(m, t)
      ensures current[owner[t - 1]] == t
    {
      if t != c.ticket { assert Expecting(s.m, t); }
    }
  }

  lemma ForwardKeepsOrder(m: Master, log: seq<Forward>, f: Forward)
    requires Ordered(log) && Frontier(m, log)
    requires f.cmd.hint == Plain <==> f.cmd.ticket == 0
    requires f.toMaster == (f.cmd.hint == Cease)
    requires m.active != 0 ==> f.cmd.ticket == m.active && m.last.None?
    requires m.active == 0 && f.cmd.ticket != 0 ==> f.cmd.ticket > m.ticketCnt
    ensures Ordered(log + [f])
  {
    var all := log + [f];
    assert forall i | 0 <= i < |all| :: all[i] == if i < |log| then log[i] else f;
  }

  lemma IssueKeepsLine(s: System, step: Step)
    requires Queues(s.m) && Tickets(s) && Ordered(s.log) && Frontier(s.m, s.log)
    requires step.Issue? && Enabled(s, step) && AssertsHold(s, step)
    ensures var s' := Apply(s, step); Ordered(s'.log) && Frontier(s'.m, s'.log)
  {
    var s' := Apply(s, step);
    var (c, s1) := Drawn(s, step.slave, step.api, step.hint);
    DrawnIsExpected(s, step);
    var f := HandleAtomicBlock(s1.m, c).1;
    if f.Some? {
      ForwardKeepsOrder(s.m, s.log, f.value);
      assert forall i | 0 <= i < |s'.log| :: s'.log[i] == if i < |s.log| then s.log[i] else f.value;
    }
  }

  lemma IssueKeepsDiverted(s: System, step: Step)
    requires Queues(s.m) && Tickets(s) && Diverted(s)
    requires step.Issue? && Enabled(s, step) && AssertsHold(s, step)
    ensures Diverted(Apply(s, step))
  {
    var (c, s1) := Drawn(s, step.slave, step.api, step.hint);
    DrawnIsExpected(s, step);
    var f := HandleAtomicBlock(s1.m, c).1;
    if f.Some? {
      SubstitutesAppend(s.wire, [f.value]);
      assert [f.value][..0] == [];
    }
    if f.Some? && f.value.toMaster {
      assert s.ended == [];
    }
  }

  lemma HandledOnce(m: Master, c: Command, log: seq<Forward>, issued: seq<Command>)
    requires MayHandle(m, c) && Inbound(m, log, issued)
    ensures var (m', f) := HandleAtomicBlock(m, c);
            Inbound(m', if f.Some? then log + [f.value] else log, issued + [c])
  {
    hide Flatten;
    var (m', f) := HandleAtomicBlock(m, c);
    assert multiset(issued + [c]) == multiset(issued) + multiset{c};
    if f.Some? {
      CmdsAppend(log, [f.value]);
      assert Cmds([f.value]) == [c];
    } else if c.ticket != 0 {
      FlattenPush(m.blocks, c.ticket, c);
    } else {
      assert multiset(m.plain + [c]) == multiset(m.plain) + multiset{c};
    }
  }

  lemma IssueKeepsCount(s: System, step: Step)
    requires Queues(s.m) && Tickets(s) && Conserved(s)
    requires step.Issue? && Enabled(s, step) && AssertsHold(s, step)
    ensures Conserved(Apply(s, step))
  {
    hide Queues, Tickets, HandleAtomicBlock, MayHandle, Inbound, Owned;
    var s' := Apply(s, step);
    var (c, s1) := Drawn(s, step.slave, step.api, step.hint);
    DrawnIsExpected(s, step);
    assert Inbound(s1.m, s.log, s.issued) by { SameQueues(s.m, s1.m, s.log, s.issued); }
    HandledOnce(s1.m, c, s.log, s.issued);
    var f := HandleAtomicBlock(s1.m, c).1;
    if f.Some? { WireGrows(s, s', [f.value]); }
    StillOwned(s, s', c);
  }

  /** What is put on the wire is logged. */
  lemma WireGrows(s: System, s': System, fs: seq<Forward>)
    requires OverTheWire(s) && s'.replies == s.replies && s'.wire == s.wire + fs && s'.log == s.log + fs
    ensures OverTheWire(s')
  {
    hide Cmds, FirstOf;
    CmdsAppend(s.log, fs);
    CmdsAppend(s.wire, fs);
    SameSum(multiset(FirstOf(s.replies)), multiset(Cmds(s.wire)), multiset(Cmds(s.log)), multiset(Cmds(fs)));
  }

  lemma SameSum(a: multiset<Command>, b: multiset<Command>, c: multiset<Command>, d: multiset<Command>)
    requires a + b == c
    ensures a + (b + d) == c + d
  {
  }

  lemma SameQueues(m: Master, m1: Master, log: seq<Forward>, issued: seq<Command>)
    requires Inbound(m, log, issued) && m1.plain == m.plain && m1.blocks == m.blocks
    ensures Inbound(m1, log, issued)
  {
  }

  lemma StillOwned(s: System, s': System, c: Command)
    requires |s.owner| <= |s'.owner| && s'.owner[..|s.owner|] == s.owner
    requires s'.issued == s.issued + [c] && c.id == |s.issued| && Owned(s', c)
    requires forall k | 0 <= k < |s.issued| :: s.issued[k].id == k && Owned(s, s.issued[k])
    ensures forall k | 0 <= k < |s'.issued| :: s'.issued[k].id == k && Owned(s', s'.issued[k])
  {
    forall k | 0 <= k < |s'.issued| ensures s'.issued[k].id == k && Owned(s', s'.issued[k]) {
      if k < |s.issued| { assert Owned(s, s.issued[k]); }
    }
  }

  lemma ReplyKeepsDiverted(s: System, step: Step)
    requires Diverted(s) && step.Reply? && Enabled(s, step)
    ensures Diverted(Apply(s, step))
  {
    SubstitutesRemove(s.wire, step.k);
    assert s.wire[step.k] in s.wire;
  }

  lemma MovedOver(replied: multiset<Command>, wire: multiset<Command>, log: multiset<Command>, c: Command)
    requires replied + wire == log && c in wire
    ensures (replied + multiset{c}) + (wire - multiset{c}) == log
  {
  }

  lemma ReplyKeepsWire(s: System, step: Step)
    requires OverTheWire(s) && step.Reply? && Enabled(s, step)
    ensures OverTheWire(Apply(s, step))
  {
    var s' := Apply(s, step);
    var c := s.wire[step.k].cmd;
    CmdsRemove(s.wire, step.k);
    assert FirstOf(s'.replies) == FirstOf(s.replies) + [c];
    assert Cmds(s.wire)[step.k] == c;
    MovedOver(multiset(FirstOf(s.replies)), multiset(Cmds(s.wire)), multiset(Cmds(s.log)), c);
  }

  lemma ReplyKeepsCount(s: System, step: Step)
    requires Conserved(s) && step.Reply? && Enabled(s, step)
    ensures Conserved(Apply(s, step))
  {
    var s' := Apply(s, step);
    ReplyKeepsWire(s, step);
    assert multiset(s'.replies) == multiset(s.replies) + multiset{(s.wire[step.k].cmd, step.result)};
    assert Inbound(s'.m, s'.log, s'.issued);
    forall k | 0 <= k < |s.issued| ensures Owned(s', s.issued[k]) { assert Owned(s, s.issued[k]); }
  }

  lemma ReplyKeepsRest(s: System, step: Step)
    requires Tickets(s) && step.Reply? && Enabled(s, step)
    ensures var s' := Apply(s, step); Tickets(s') && s'.m == s.m && s'.log == s.log
  {
    assert forall t :: Expecting(Apply(s, step).m, t) == Expecting(s.m, t);
  }

  lemma EndKeepsQueues(s: System)
    requires Inv(s) && s.ended != [] && MayEnd(s.m)
    ensures Queues(Apply(s, RunEndOfBlock).m) && Tickets(Apply(s, RunEndOfBlock))
  {
    var s' := Apply(s, RunEndOfBlock);
    if s.m.blocks.Keys != {} {
      var t := MinKey(s.m.blocks.Keys);
      assert BlockShape(s.m.blocks[t], t);
      forall u <- s'.m.blocks ensures t < u && BlockShape(s'.m.blocks[u], u) {
        assert u in s.m.blocks.Keys && BlockShape(s.m.blocks[u], u);
      }
    }
    forall t ensures Expecting(s'.m, t) == Expecting(s.m, t) {
      if t in s.m.blocks { assert BlockShape(s.m.blocks[t], t); }
    }
  }

  lemma EndKeepsOrder(s: System)
    requires Queues(s.m) && Ordered(s.log) && Frontier(s.m, s.log) && s.ended != [] && MayEnd(s.m)
    ensures var s' := Apply(s, RunEndOfBlock); Ordered(s'.log) && Frontier(s'.m, s'.log)
  {
    var s' := Apply(s, RunEndOfBlock);
    var mid := s.log + Wrap(s.m.plain);
    PlainKeepsOrder(s.m, s.log, Wrap(s.m.plain));
    if s.m.blocks.Keys == {} {
      assert s'.log == mid;
    } else {
      var t := MinKey(s.m.blocks.Keys);
      var q := s.m.blocks[t];
      assert BlockShape(q, t);
      var fs := Wrap(q[..|q| - 1]) + [Forward(q[|q| - 1], q[|q| - 1].hint == Cease)];
      assert s'.log == mid + fs;
      BlockKeepsOrder(s.m, mid, fs, t);
    }
  }

  lemma PlainKeepsOrder(m: Master, log: seq<Forward>, fs: seq<Forward>)
    requires Queues(m) && Ordered(log) && Frontier(m, log) && m.last.Some?
    requires forall f <- fs :: f.cmd.ticket == 0 && f.cmd.hint == Plain && !f.toMaster
    ensures Ordered(log + fs)
    ensures log + fs != [] && (log + fs)[|log + fs| - 1].cmd.hint != Request
    ensures forall i | 0 <= i < |log + fs| :: (log + fs)[i].cmd.ticket <= m.active
                                              && (log + fs)[i].toMaster == ((log + fs)[i].cmd.hint == Cease)
  {
    var all := log + fs;
    assert forall i | 0 <= i < |all| :: if i < |log| then all[i] == log[i] else all[i] in fs;
  }

  lemma BlockKeepsOrder(m: Master, log: seq<Forward>, fs: seq<Forward>, t: nat)
    requires Ordered(log) && log != [] && log[|log| - 1].cmd.hint != Request && m.active < t <= m.ticketCnt
    requires forall i | 0 <= i < |log| :: log[i].cmd.ticket <= m.active && log[i].toMaster == (log[i].cmd.hint == Cease)
    requires fs != [] && forall i | 0 <= i < |fs| ::
               fs[i].cmd.ticket == t && fs[i].cmd.hint != Plain && fs[i].toMaster == (fs[i].cmd.hint == Cease)
               && (i < |fs| - 1 ==> fs[i].cmd.hint == Request)
    ensures Ordered(log + fs)
    ensures forall i | 0 <= i < |log + fs| :: (log + fs)[i].cmd.ticket <= t
                                              && (log + fs)[i].toMaster == ((log + fs)[i].cmd.hint == Cease)
  {
    var all := log + fs;
    assert forall i | 0 <= i < |all| :: all[i] == if i < |log| then log[i] else fs[i - |log|];
  }

  lemma EndKeepsDiverted(s: System)
    requires Queues(s.m) && Diverted(s) && s.ended != [] && MayEnd(s.m)
    ensures Diverted(Apply(s, RunEndOfBlock))
  {
    var s' := Apply(s, RunEndOfBlock);
    var fs := EndOfBlock(s.m).1;
    SubstitutesAppend(s.wire, fs);
    forall f <- s.wire ensures !f.toMaster {
      if f.toMaster { var k :| 0 <= k < |s.wire| && s.wire[k] == f; SubstituteCounted(s.wire, k); }
    }
    var w := Wrap(s.m.plain);
    NoSubstitutes(w);
    if s.m.blocks.Keys != {} {
      var q := s.m.blocks[MinKey(s.m.blocks.Keys)];
      var front := Wrap(q[..|q| - 1]);
      var tip := [Forward(q[|q| - 1], q[|q| - 1].hint == Cease)];
      NoSubstitutes(front);
      SubstitutesAppend(w + front, tip);
      SubstitutesAppend(w, front);
      assert tip[..0] == [];
    }
  }

  lemma EndForwards(m: Master)
    requires MayEnd(m)
    ensures var (m', fs) := EndOfBlock(m);
            m'.plain == []
            && multiset(Cmds(fs)) + multiset(Flatten(m'.blocks)) == multiset(m.plain) + multiset(Flatten(m.blocks))
  {
    var fs := EndOfBlock(m).1;
    if m.blocks.Keys == {} {
      assert Cmds(fs) == m.plain;
      assert Flatten(m.blocks) == [];
    } else {
      var t := MinKey(m.blocks.Keys);
      var q := m.blocks[t];
      assert q == q[..|q| - 1] + [q[|q| - 1]];
      assert Cmds(fs) == m.plain + q;
      assert Flatten(m.blocks) == q + Flatten(m.blocks - {t});
    }
  }

  lemma EndKeepsInbound(m: Master, log: seq<Forward>, issued: seq<Command>)
    requires MayEnd(m) && Inbound(m, log, issued)
    ensures var (m', fs) := EndOfBlock(m); Inbound(m', log + fs, issued)
  {
    hide EndOfBlock, Cmds, Flatten;
    var (m', fs) := EndOfBlock(m);
    EndForwards(m);
    CmdsAppend(log, fs);
    Released(multiset(Cmds(log)), multiset(m.plain), multiset(Flatten(m.blocks)),
             multiset(Cmds(fs)), multiset(Flatten(m'.blocks)));
  }

  lemma Released(log: multiset<Command>, plain: multiset<Command>, queued: multiset<Command>,
                 fs: multiset<Command>, left: multiset<Command>)
    requires fs + left == plain + queued
    ensures (log + fs) + multiset{} + left == log + plain + queued
  {
    assert (log + fs) + multiset{} + left == log + (fs + left);
  }

  lemma EndKeepsCount(s: System)
    requires Diverted(s) && Conserved(s) && s.ended != [] && MayEnd(s.m)
    ensures Conserved(Apply(s, RunEndOfBlock))
  {
    var s' := Apply(s, RunEndOfBlock);
    var fs := EndOfBlock(s.m).1;
    hide EndOfBlock, Inbound;
    EndKeepsInbound(s.m, s.log, s.issued);
    WireGrows(s, s', fs);
    assert Returned(s') by {
      assert s.ended[0] in s.ended && |s.ended| == 1;
      assert s.ended == [s.ended[0]] && s'.ended == [];
    }
    assert Numbered(s') by {
      forall k | 0 <= k < |s.issued| ensures Owned(s', s.issued[k]) { assert Owned(s, s.issued[k]); }
    }
  }

  lemma StepKeeps(s: System, step: Step)
    requires Inv(s)
    ensures Inv(Next(s, step))
    ensures Enabled(s, step) ==> AssertsHold(s, step)
  {
    if Enabled(s, step) {
      AssertSafe(s, step);
      match step
      case Issue(_, _, _) =>
        IssueKeepsQueues(s, step);
        IssueKeepsTickets(s, step);
        IssueKeepsLine(s, step);
        IssueKeepsDiverted(s, step);
        IssueKeepsCount(s, step);
      case Reply(_, _) =>
        ReplyKeepsRest(s, step);
        ReplyKeepsDiverted(s, step);
        ReplyKeepsCount(s, step);
      case RunEndOfBlock =>
        EndKeepsQueues(s);
        EndKeepsOrder(s);
        EndKeepsDiverted(s);
        EndKeepsCount(s);
    }
  }

  lemma {:induction false} RunKeeps(n: nat, steps: seq<Step>)
    ensures Inv(Run(Initial(n), steps))
    decreases |steps|
  {
    if steps == [] {
      InitialInv(n);
    } else {
      RunKeeps(n, steps[..|steps| - 1]);
      StepKeeps(Run(Initial(n), steps[..|steps| - 1]), steps[|steps| - 1]);
    }
  }
}
