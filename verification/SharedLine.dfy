/** Arbitration of one physical line between many slaves: the state machine of
    CSharedConnectionMaster and CSharedConnectionSlave as functions on values.
    The classes in SharedLineObjects.dfy update the same state in place. */
module SharedLine {
  import opened Prelude

  datatype Api = Connect | Disconnect | Send | Receive | Accept | Noop

  /** ICONN_ATOMIC_COMMS: absent, "request" (true) or "cease" (false). */
  datatype Hint = Plain | Request | Cease

  /** One ICommand handed to the master. Ticket 0 means "no ticket". */
  datatype Command = Command(id: nat, slave: nat, api: Api, hint: Hint, ticket: nat)

  /** A command given to the real connection. When toMaster is set it is the
      substitute that completes with CMD_HANDLEENDOFBLOCK at the master. */
  datatype Forward = Forward(cmd: Command, toMaster: bool)

  datatype Master = Master(
    ticketCnt: nat,
    active: nat,
    last: Option<Command>,
    plain: seq<Command>,
    blocks: map<nat, seq<Command>>)

  function Wrap(cs: seq<Command>): (fs: seq<Forward>)
    ensures |fs| == |cs|
    ensures forall i | 0 <= i < |fs| :: fs[i] == Forward(cs[i], false)
  {
    seq(|cs|, i requires 0 <= i < |cs| => Forward(cs[i], false))
  }

  function Cmds(fs: seq<Forward>): (cs: seq<Command>)
    ensures |cs| == |fs|
    ensures forall i | 0 <= i < |cs| :: cs[i] == fs[i].cmd
  {
    seq(|fs|, i requires 0 <= i < |fs| => fs[i].cmd)
  }

  /** The ticket a slave puts on a command, its own ticket afterwards, and the
      master's counter afterwards. */
  function HandleTickets(ticketCnt: nat, current: nat, hint: Hint): (r: (nat, nat, nat))
  {
    if hint == Plain then (0, current, ticketCnt)
    else
      var cnt := if current == 0 then ticketCnt + 1 else ticketCnt;
      var t := if current == 0 then cnt else current;
      (t, if hint == Cease then 0 else t, cnt)
  }

  /** The assert in the branch that forwards the end of the active block. */
  predicate MayHandle(m: Master, c: Command) {
    c.ticket != 0 && (m.active == 0 || m.active == c.ticket) && c.hint == Cease ==> m.last.None?
  }

  function HandleAtomicBlock(m: Master, c: Command): (r: (Master, Option<Forward>))
    requires MayHandle(m, c)
  {
    if c.ticket != 0 then
      if m.active == 0 || m.active == c.ticket then
        if c.hint == Cease then
          (m.(active := c.ticket, last := Some(c)), Some(Forward(c, true)))
        else
          (m.(active := c.ticket), Some(Forward(c, false)))
      else
        var q := if c.ticket in m.blocks then m.blocks[c.ticket] else [];
        (m.(blocks := m.blocks[c.ticket := q + [c]]), None)
    else if m.active != 0 then
      (m.(plain := m.plain + [c]), None)
    else
      (m, Some(Forward(c, false)))
  }

  /** The asserts on last_atomic_cmd and on the size of the next queue. */
  predicate MayEnd(m: Master) {
    m.last.Some? && forall t <- m.blocks :: m.blocks[t] != []
  }

  function EndOfBlock(m: Master): (r: (Master, seq<Forward>))
    requires MayEnd(m)
  {
    if m.blocks.Keys == {} then
      (m.(active := 0, last := None, plain := []), Wrap(m.plain))
    else
      var t := MinKey(m.blocks.Keys);
      var q := m.blocks[t];
      var c := q[|q| - 1];
      (Master(m.ticketCnt, t, if c.hint == Cease then Some(c) else None, [], m.blocks - {t}),
       Wrap(m.plain) + Wrap(q[..|q| - 1]) + [Forward(c, c.hint == Cease)])
  }

  // ---------------------------------------------------------------- the whole system

  /** Slave 0 is the master's own slave. A reply is recorded with the command it
      answers; `ended` holds completed substitutes waiting in the scheduler. */
  datatype System = System(
    m: Master,
    current: seq<nat>,
    owner: seq<nat>,
    issued: seq<Command>,
    log: seq<Forward>,
    wire: seq<Forward>,
    replies: seq<(Command, int)>,
    ended: seq<(Command, int)>,
    answered: seq<(Command, int)>)

  datatype Step =
    | Issue(slave: nat, api: Api, hint: Hint)
    | Reply(k: nat, result: int)
    | RunEndOfBlock

  /** Only the master's own slave may really disconnect. */
  function EffectiveApi(slave: nat, api: Api): Api {
    if api == Disconnect && slave != 0 then Noop else api
  }

  function Initial(slaves: nat): System {
    System(Master(0, 0, None, [], map[]), seq(slaves, _ => 0), [], [], [], [], [], [], [])
  }

  /** Ticketed runs: a read without the atomic hint belongs to the other mode. */
  predicate Enabled(s: System, step: Step) {
    match step
    case Issue(i, api, hint) => i < |s.current| && !(api == Receive && hint == Plain)
    case Reply(k, _) => k < |s.wire|
    case RunEndOfBlock => s.ended != []
  }

  function Drawn(s: System, i: nat, api: Api, hint: Hint): (r: (Command, System))
    requires i < |s.current|
  {
    var (t, cur, cnt) := HandleTickets(s.m.ticketCnt, s.current[i], hint);
    var c := Command(|s.issued|, i, EffectiveApi(i, api), hint, t);
    (c, s.(m := s.m.(ticketCnt := cnt), current := s.current[i := cur],
           owner := if cnt > s.m.ticketCnt then s.owner + [i] else s.owner,
           issued := s.issued + [c]))
  }

  /** The asserts of the source at this step. */
  predicate AssertsHold(s: System, step: Step)
    requires Enabled(s, step)
  {
    match step
    case Issue(i, api, hint) =>
      var (c, s1) := Drawn(s, i, api, hint);
      MayHandle(s1.m, c)
    case Reply(_, _) => true
    case RunEndOfBlock => MayEnd(s.m)
  }

  function Apply(s: System, step: Step): System
    requires Enabled(s, step) && AssertsHold(s, step)
  {
    match step
    case Issue(i, api, hint) =>
      var (c, s1) := Drawn(s, i, api, hint);
      var (m', f) := HandleAtomicBlock(s1.m, c);
      if f.None? then s1.(m := m')
      else s1.(m := m', log := s1.log + [f.value], wire := s1.wire + [f.value])
    case Reply(k, result) =>
      var f := s.wire[k];
      var pair := (f.cmd, result);
      var s1 := s.(wire := s.wire[..k] + s.wire[k + 1..], replies := s.replies + [pair]);
      if f.toMaster then s1.(ended := s1.ended + [pair]) else s1.(answered := s1.answered + [pair])
    case RunEndOfBlock =>
      var (m', fs) := EndOfBlock(s.m);
      s.(m := m', ended := s.ended[1..], answered := s.answered + [(s.m.last.value, s.ended[0].1)],
         log := s.log + fs, wire := s.wire + fs)
  }

  /** A run: steps that are not enabled, or that would stop on an assert, do nothing. */
  function Next(s: System, step: Step): System {
    if Enabled(s, step) && AssertsHold(s, step) then Apply(s, step) else s
  }

  function Run(s: System, steps: seq<Step>): System
    decreases |steps|
  {
    if steps == [] then s
    else Next(Run(s, steps[..|steps| - 1]), steps[|steps| - 1])
  }
}
