/** The master and slave objects of the shared connection, updating their fields in place.
    Each method is proved against the functions of module SharedLine. */
module SharedLineObjects {
  import opened Prelude
  import Spec = SharedLine
  import opened SharedLine

  class SharedConnectionMaster {
    var ticketCnt: nat
    var activeTicket: nat
    var lastAtomicCmd: Option<Command>
    var nonAtomicPending: seq<Command>
    var atomicPending: map<nat, seq<Command>>
    /** What the real connection was given, oldest first. */
    var forwarded: seq<Forward>
    /** Callers handed to the main scheduler, with the result of their command. */
    var scheduled: seq<(Command, int)>

    ghost function State(): Master
      reads this
    {
      Master(ticketCnt, activeTicket, lastAtomicCmd, nonAtomicPending, atomicPending)
    }

    constructor ()
      ensures State() == Initial(0).m && forwarded == [] && scheduled == []
    {
      ticketCnt, activeTicket, lastAtomicCmd := 0, 0, None;
      nonAtomicPending, atomicPending, forwarded, scheduled := [], map[], [], [];
    }

    method GetTicket() returns (ticket: nat)
      modifies this`ticketCnt
      ensures ticketCnt == old(ticketCnt) + 1 && ticket == ticketCnt
    {
      ticketCnt := ticketCnt + 1;
      ticket := ticketCnt;
    }

    /** The command to forward now, or None when it was queued. */
    method HandleAtomicBlock(cmd: Command) returns (next: Option<Forward>)
      requires MayHandle(State(), cmd)
      modifies this`activeTicket, this`lastAtomicCmd, this`nonAtomicPending, this`atomicPending
      ensures (State(), next) == Spec.HandleAtomicBlock(old(State()), cmd)
    {
      if cmd.ticket != 0 {
        if activeTicket == 0 {
          activeTicket := cmd.ticket;
        }
        if activeTicket == cmd.ticket {
          if cmd.hint == Cease {
            lastAtomicCmd := Some(cmd);
            return Some(Forward(cmd, true));
          }
          return Some(Forward(cmd, false));
        }
        if cmd.ticket !in atomicPending {
          atomicPending := atomicPending[cmd.ticket := [cmd]];
        } else {
          atomicPending := atomicPending[cmd.ticket := atomicPending[cmd.ticket] + [cmd]];
        }
        assert [] + [cmd] == [cmd];
        return None;
      }
      if activeTicket != 0 {
        nonAtomicPending := nonAtomicPending + [cmd];
        return None;
      }
      return Some(Forward(cmd, false));
    }

    method Dispatch(f: Forward)
      modifies this`forwarded
      ensures forwarded == old(forwarded) + [f]
    {
      forwarded := forwarded + [f];
    }

    /** The non-atomic commands are just given to the connection, oldest first. */
    method DrainNonAtomic()
      modifies this`nonAtomicPending, this`forwarded
      ensures nonAtomicPending == []
      ensures forwarded == old(forwarded) + Wrap(old(nonAtomicPending))
    {
      ghost var plain := nonAtomicPending;
      while nonAtomicPending != []
        invariant |nonAtomicPending| <= |plain|
        invariant nonAtomicPending == plain[|plain| - |nonAtomicPending|..]
        invariant forwarded == old(forwarded) + Wrap(plain[..|plain| - |nonAtomicPending|])
        decreases |nonAtomicPending|
      {
        var cmd := nonAtomicPending[0];
        nonAtomicPending := nonAtomicPending[1..];
        Dispatch(Forward(cmd, false));
      }
      assert plain[..|plain|] == plain;
    }

    /** All commands of a queued block but the last, which is returned. */
    method DrainBlock(block: seq<Command>) returns (last: Command)
      requires block != []
      modifies this`forwarded
      ensures forwarded == old(forwarded) + Wrap(block[..|block| - 1])
      ensures last == block[|block| - 1]
    {
      var q := block;
      while |q| > 1
        invariant 1 <= |q| <= |block| && q == block[|block| - |q|..]
        invariant forwarded == old(forwarded) + Wrap(block[..|block| - |q|])
      {
        var cmd := q[0];
        q := q[1..];
        Dispatch(Forward(cmd, false));
      }
      last := q[0];
    }

    /** CMD_HANDLEENDOFBLOCK: answer the diverted caller, then drain the queues. */
    method ExecuteEndOfBlock(result: int)
      requires MayEnd(State())
      modifies this
      ensures scheduled == old(scheduled) + [(old(lastAtomicCmd).value, result)]
      ensures var (m', fs) := EndOfBlock(old(State()));
              State() == m' && forwarded == old(forwarded) + fs
    {
      scheduled := scheduled + [(lastAtomicCmd.value, result)];
      lastAtomicCmd := None;
      activeTicket := 0;
      DrainNonAtomic();
      if atomicPending.Keys != {} {
        activeTicket := MinKey(atomicPending.Keys);
        var cmd := DrainBlock(atomicPending[activeTicket]);
        if cmd.hint == Cease {
          lastAtomicCmd := Some(cmd);
          Dispatch(Forward(cmd, true));
        } else {
          Dispatch(Forward(cmd, false));
        }
        atomicPending := atomicPending - {activeTicket};
      }
    }
  }

  class SharedConnectionSlave {
    const master: SharedConnectionMaster
    /** Position among the slaves; the master's own slave is number 0. */
    const index: nat
    var currentTicket: nat

    constructor (master: SharedConnectionMaster, index: nat)
      ensures this.master == master && this.index == index && currentTicket == 0
    {
      this.master, this.index, currentTicket := master, index, 0;
    }

    method HandleTickets(hint: Hint) returns (ticket: nat)
      modifies this, master`ticketCnt
      ensures (ticket, currentTicket, master.ticketCnt)
           == Spec.HandleTickets(old(master.ticketCnt), old(currentTicket), hint)
    {
      if hint == Plain {
        return 0;
      }
      if currentTicket == 0 {
        currentTicket := master.GetTicket();
      }
      ticket := currentTicket;
      if hint == Cease {
        currentTicket := 0;
      }
    }

    /** Connect, Disconnect, Send, Receive, Accept and Noop, in a ticketed run. */
    method Issue(id: nat, api: Api, hint: Hint)
      requires !(api == Receive && hint == Plain)
      requires var (t, _, cnt) := Spec.HandleTickets(master.ticketCnt, currentTicket, hint);
               MayHandle(master.State().(ticketCnt := cnt), Command(id, index, EffectiveApi(index, api), hint, t))
      modifies this, master
      ensures var (t, cur, cnt) := Spec.HandleTickets(old(master.ticketCnt), old(currentTicket), hint);
              var (m', f) := Spec.HandleAtomicBlock(old(master.State()).(ticketCnt := cnt),
                                                    Command(id, index, EffectiveApi(index, api), hint, t));
              && currentTicket == cur && master.State() == m'
              && master.forwarded == old(master.forwarded) + (if f.Some? then [f.value] else [])
              && master.scheduled == old(master.scheduled)
    {
      var ticket := HandleTickets(hint);
      var cmd := Command(id, index, EffectiveApi(index, api), hint, ticket);
      var next := master.HandleAtomicBlock(cmd);
      if next.Some? {
        master.Dispatch(next.value);
      }
    }
  }
}
