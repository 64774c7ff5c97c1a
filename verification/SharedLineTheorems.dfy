/** The promises of the shared line, for every run of any number of slaves. */
module SharedLineTheorems {
  import opened Prelude
  import opened SharedLine
  import opened SharedLineRuns

  /** No assert of the master is ever reached with a false condition. */
  lemma AssertsNeverFail(n: nat, steps: seq<Step>, step: Step)
    ensures var s := Run(Initial(n), steps); Enabled(s, step) ==> AssertsHold(s, step)
  {
    RunKeeps(n, steps);
    if Enabled(Run(Initial(n), steps), step) { AssertSafe(Run(Initial(n), steps), step); }
  }

  // ---------------------------------------------------------------- exclusive blocks

  lemma {:induction false} SameTicketBetween(log: seq<Forward>, i: nat, k: nat, j: nat)
    requires Ordered(log) && i <= k <= j < |log|
    requires log[i].cmd.ticket != 0 && log[i].cmd.ticket == log[j].cmd.ticket
    requires forall x | 0 <= x < |log| :: log[x].cmd.hint == Plain <==> log[x].cmd.ticket == 0
    ensures log[k].cmd.ticket == log[i].cmd.ticket
    decreases k - i
  {
    if i < k { SameTicketBetween(log, i + 1, k, j); }
  }

  lemma {:induction false} EndsBeforeOther(log: seq<Forward>, i: nat, j: nat) returns (k: nat)
    requires Ordered(log) && i < j < |log|
    requires log[i].cmd.hint == Request && log[j].cmd.ticket != log[i].cmd.ticket
    requires forall x | 0 <= x < |log| :: log[x].cmd.hint == Plain <==> log[x].cmd.ticket == 0
    ensures i < k < j && log[k].cmd.ticket == log[i].cmd.ticket && log[k].cmd.hint == Cease
    decreases j - i
  {
    k := i + 1;
    if log[k].cmd.hint == Request { k := EndsBeforeOther(log, i + 1, j); }
  }

  lemma LoggedIsOwned(s: System, i: nat)
    requires Inv(s) && i < |s.log|
    ensures Owned(s, s.log[i].cmd) && s.log[i].cmd in s.issued
  {
    var c := s.log[i].cmd;
    assert c == Cmds(s.log)[i];
    assert c in multiset(Cmds(s.log)) && c in multiset(s.issued);
    var k :| 0 <= k < |s.issued| && s.issued[k] == c;
  }

  /** The log of any run. */
  lemma LogOfRun(n: nat, steps: seq<Step>)
    ensures var s := Run(Initial(n), steps);
            && Ordered(s.log)
            && (forall x | 0 <= x < |s.log| :: Owned(s, s.log[x].cmd))
            && (forall x | 0 <= x < |s.log| :: s.log[x].cmd.hint == Plain <==> s.log[x].cmd.ticket == 0)
            && (forall x | 0 <= x < |s.log| :: s.log[x].toMaster == (s.log[x].cmd.hint == Cease))
  {
    hide Run, Queues, Tickets, Diverted, Conserved;
    RunKeeps(n, steps);
    var s := Run(Initial(n), steps);
    forall x | 0 <= x < |s.log| ensures Owned(s, s.log[x].cmd) { LoggedIsOwned(s, x); }
  }

  lemma SameOwner(s: System, c: Command, d: Command)
    requires Owned(s, c) && Owned(s, d) && c.ticket == d.ticket != 0
    ensures c.slave == d.slave
  {
  }

  /** Between two commands of one atomic block only commands of that block, by that slave,
      reach the connection. */
  lemma BlocksAreExclusive(n: nat, steps: seq<Step>, i: nat, k: nat, j: nat)
    requires var log := Run(Initial(n), steps).log;
             i <= k <= j < |log| && log[i].cmd.ticket != 0 && log[i].cmd.ticket == log[j].cmd.ticket
    ensures var log := Run(Initial(n), steps).log;
            log[k].cmd.ticket == log[i].cmd.ticket && log[k].cmd.slave == log[i].cmd.slave
  {
    hide Run, Owned;
    LogOfRun(n, steps);
    var s := Run(Initial(n), steps);
    SameTicketBetween(s.log, i, k, j);
    SameOwner(s, s.log[i].cmd, s.log[k].cmd);
  }

  /** Another block, or a command without ticket, follows a request only after that block ended. */
  lemma BlocksAreCompleted(n: nat, steps: seq<Step>, i: nat, j: nat) returns (k: nat)
    requires var log := Run(Initial(n), steps).log;
             i < j < |log| && log[i].cmd.hint == Request && log[j].cmd.ticket != log[i].cmd.ticket
    ensures var log := Run(Initial(n), steps).log;
            i < k < j && log[k].cmd.ticket == log[i].cmd.ticket && log[k].cmd.hint == Cease && log[k].toMaster
  {
    hide Run, Owned;
    LogOfRun(n, steps);
    var s := Run(Initial(n), steps);
    k := EndsBeforeOther(s.log, i, j);
  }

  /** Tickets reach the connection in the order they were drawn. */
  lemma TicketsInOrder(n: nat, steps: seq<Step>, i: nat, j: nat)
    requires var log := Run(Initial(n), steps).log;
             i < j < |log| && log[i].cmd.ticket != 0 && log[j].cmd.ticket != 0
    ensures var log := Run(Initial(n), steps).log;
            log[i].cmd.ticket <= log[j].cmd.ticket
            && (log[i].cmd.hint == Cease ==> log[i].cmd.ticket < log[j].cmd.ticket)
  {
    hide Run, Owned;
    LogOfRun(n, steps);
  }

  // ---------------------------------------------------------------- exactly once

  lemma {:induction false} FlattenCount(blocks: map<nat, seq<Command>>, c: Command)
    requires forall t <- blocks :: forall i | 0 <= i < |blocks[t]| :: blocks[t][i].ticket == t
    ensures multiset(Flatten(blocks))[c] == if c.ticket in blocks then multiset(blocks[c.ticket])[c] else 0
    decreases |blocks|
  {
    if blocks.Keys != {} {
      var t := MinKey(blocks.Keys);
      var rest := blocks - {t};
      assert rest.Keys == blocks.Keys - {t};
      FlattenCount(rest, c);
      assert Flatten(blocks) == blocks[t] + Flatten(rest);
      if c.ticket != t { assert c !in blocks[t]; }
    }
  }

  lemma IssuedOnce(s: System, k: nat)
    requires Numbered(s) && k < |s.issued|
    ensures multiset(s.issued)[s.issued[k]] == 1
  {
    var c := s.issued[k];
    var before, after := s.issued[..k], s.issued[k + 1..];
    assert s.issued == before + [c] + after;
    assert forall x <- before :: x.id < k;
    assert forall x <- after :: x.id > k by {
      forall x <- after ensures x.id > k {
        var i :| 0 <= i < |after| && after[i] == x;
        assert after[i] == s.issued[k + 1 + i];
      }
    }
  }

  /** Every command given to the master is in exactly one place, once: forwarded,
      waiting without ticket, or waiting in the queue of its ticket. */
  lemma InOnePlace(n: nat, steps: seq<Step>, k: nat)
    requires k < |Run(Initial(n), steps).issued|
    ensures var s := Run(Initial(n), steps);
            var c := s.issued[k];
            multiset(Cmds(s.log))[c] + multiset(s.m.plain)[c]
            + (if c.ticket in s.m.blocks then multiset(s.m.blocks[c.ticket])[c] else 0) == 1
  {
    var s := Run(Initial(n), steps);
    RunKeeps(n, steps);
    forall t <- s.m.blocks ensures forall i | 0 <= i < |s.m.blocks[t]| :: s.m.blocks[t][i].ticket == t {
      assert BlockShape(s.m.blocks[t], t);
    }
    FlattenCount(s.m.blocks, s.issued[k]);
    IssuedOnce(s, k);
  }

  lemma WithoutOne(b: seq<(Command, int)>, i: nat)
    requires i < |b|
    ensures var b' := b[..i] + b[i + 1..];
            && multiset(b) == multiset(b') + multiset{b[i]}
            && multiset(FirstOf(b)) == multiset(FirstOf(b')) + multiset{b[i].0}
  {
    assert b == b[..i] + [b[i]] + b[i + 1..];
    var f := FirstOf(b);
    assert FirstOf(b[..i] + b[i + 1..]) == f[..i] + f[i + 1..];
    assert f == f[..i] + [f[i]] + f[i + 1..];
  }

  lemma {:induction false} FirstOfCount(a: seq<(Command, int)>, b: seq<(Command, int)>, c: Command)
    requires multiset(a) <= multiset(b)
    ensures multiset(FirstOf(a))[c] <= multiset(FirstOf(b))[c]
    decreases |a|
  {
    if a != [] {
      assert a[0] in multiset(a) && a[0] in multiset(b);
      var i :| 0 <= i < |b| && b[i] == a[0];
      WithoutOne(a, 0);
      WithoutOne(b, i);
      var a', b' := a[..0] + a[1..], b[..i] + b[i + 1..];
      assert multiset(a') <= multiset(b') by {
        hide FirstOf;
        forall p ensures multiset(a')[p] <= multiset(b')[p] {
          assert multiset(a)[p] <= multiset(b)[p];
        }
      }
      FirstOfCount(a', b', c);
    }
  }

  /** A caller is answered at most once, only after the connection replied to that very
      command, and with the result of that reply, also when the reply was diverted. */
  lemma AnsweredAtMostOnce(n: nat, steps: seq<Step>, k: nat)
    requires k < |Run(Initial(n), steps).answered|
    ensures var s := Run(Initial(n), steps);
            && s.answered[k] in s.replies
            && s.answered[k].0 in s.issued
            && multiset(FirstOf(s.answered))[s.answered[k].0] == 1
  {
    var s := Run(Initial(n), steps);
    RunKeeps(n, steps);
    var c := s.answered[k].0;
    assert s.answered[k] in multiset(s.answered);
    assert s.answered[k] in multiset(s.replies);
    FirstOfCount(s.answered, s.replies, c);
    assert FirstOf(s.answered)[k] == c;
    assert c in multiset(FirstOf(s.answered));
    assert multiset(FirstOf(s.replies))[c] <= multiset(Cmds(s.log))[c] <= multiset(s.issued)[c];
    assert c in multiset(s.issued);
    var i :| 0 <= i < |s.issued| && s.issued[i] == c;
    IssuedOnce(s, i);
  }

  /** What the connection replied in a run: the command and the result, in order. */
  function Results(n: nat, steps: seq<Step>): seq<(Command, int)>
    decreases |steps|
  {
    if steps == [] then []
    else
      var init, last := steps[..|steps| - 1], steps[|steps| - 1];
      var wire := Run(Initial(n), init).wire;
      Results(n, init) + if last.Reply? && last.k < |wire| then [(wire[last.k].cmd, last.result)] else []
  }

  lemma {:induction false} ResultsAreKept(n: nat, steps: seq<Step>)
    ensures Run(Initial(n), steps).replies == Results(n, steps)
    decreases |steps|
  {
    hide Next;
    if steps != [] {
      var init := steps[..|steps| - 1];
      ResultsAreKept(n, init);
      StepReplies(Run(Initial(n), init), steps[|steps| - 1]);
    }
  }

  lemma StepReplies(s: System, step: Step)
    ensures Next(s, step).replies ==
            s.replies + if step.Reply? && step.k < |s.wire| then [(s.wire[step.k].cmd, step.result)] else []
  {
    hide EndOfBlock, HandleAtomicBlock, MayHandle, MayEnd;
  }

  /** Each reply of the connection is for a command on the wire, which it takes away, and its result
      goes to the caller of that command, now or at the end of its block, and to nobody else. */
  lemma AnswersAreResults(n: nat, steps: seq<Step>)
    ensures var s := Run(Initial(n), steps);
            && multiset(s.answered) + multiset(s.ended) == multiset(Results(n, steps))
            && multiset(FirstOf(Results(n, steps))) + multiset(Cmds(s.wire)) == multiset(Cmds(s.log))
  {
    hide Run;
    ResultsAreKept(n, steps);
    RunKeeps(n, steps);
  }

  lemma SameFirsts(a: seq<(Command, int)>, b: seq<(Command, int)>)
    requires multiset(a) == multiset(b)
    ensures multiset(FirstOf(a)) == multiset(FirstOf(b))
  {
    forall c ensures multiset(FirstOf(a))[c] == multiset(FirstOf(b))[c] {
      FirstOfCount(a, b, c);
      FirstOfCount(b, a, c);
    }
  }

  /** No command is stuck: when no slave is inside a block, the connection owes nothing and
      no end of block waits in the scheduler, every issued command has been answered. */
  lemma QuietMeansAnswered(n: nat, steps: seq<Step>)
    requires var s := Run(Initial(n), steps);
             s.wire == [] && s.ended == [] && forall i | 0 <= i < |s.current| :: s.current[i] == 0
    ensures var s := Run(Initial(n), steps);
            multiset(FirstOf(s.answered)) == multiset(s.issued)
  {
    var s := Run(Initial(n), steps);
    RunKeeps(n, steps);
    assert s.m.last.None?;
    if s.m.active != 0 {
      assert Expecting(s.m, s.m.active);
      assert false;
    }
    assert s.m.active == 0 ==> Flatten(s.m.blocks) == [];
    SameFirsts(s.answered, s.replies);
    assert Cmds(s.wire) == [];
  }

  // ---------------------------------------------------------------- bounded bypass

  /** Blocks that are served before ticket t: the active one and the queued smaller ones. */
  ghost function Ahead(m: Master, t: nat): nat {
    1 + |set u | u in m.blocks && u < t|
  }

  ghost function EndsRun(s: System, steps: seq<Step>): nat
    decreases |steps|
  {
    if steps == [] then 0
    else
      var init := steps[..|steps| - 1];
      var last := steps[|steps| - 1];
      EndsRun(s, init) + (if last == RunEndOfBlock && Enabled(Run(s, init), last) then 1 else 0)
  }

  lemma EndServes(m: Master, t: nat)
    requires MayEnd(m) && t in m.blocks
    ensures var m' := EndOfBlock(m).0;
            && m'.plain == []
            && (Ahead(m, t) == 1 ==> m'.active == t)
            && (Ahead(m, t) > 1 ==> t in m'.blocks && Ahead(m', t) == Ahead(m, t) - 1)
  {
    var m' := EndOfBlock(m).0;
    var least := MinKey(m.blocks.Keys);
    assert t in m.blocks.Keys;
    var below := set u | u in m.blocks && u < t;
    var below' := set u | u in m'.blocks && u < t;
    if least == t {
      assert below == {};
    } else {
      assert least in below;
      assert below' == below - {least};
    }
  }

  lemma HandleServes(m: Master, c: Command, t: nat)
    requires MayHandle(m, c) && t in m.blocks
    requires (c.ticket in m.blocks || c.ticket >= t || c.ticket == m.active || c.ticket == 0)
    ensures var m' := HandleAtomicBlock(m, c).0;
            t in m'.blocks && Ahead(m', t) == Ahead(m, t) && m.plain <= m'.plain
  {
    var m' := HandleAtomicBlock(m, c).0;
    assert (set u | u in m'.blocks && u < t) == (set u | u in m.blocks && u < t);
  }

  /** One step: an end of block brings every waiting ticket one place forward and empties the
      queue of commands without ticket; nothing else changes who is ahead. */
  lemma StepServes(s: System, step: Step, t: nat)
    requires Inv(s) && t in s.m.blocks
    ensures var s' := Next(s, step);
            if step == RunEndOfBlock && Enabled(s, step) then
              && s'.m.plain == []
              && (Ahead(s.m, t) == 1 ==> s'.m.active == t)
              && (Ahead(s.m, t) > 1 ==> t in s'.m.blocks && Ahead(s'.m, t) == Ahead(s.m, t) - 1)
            else
              && t in s'.m.blocks && Ahead(s'.m, t) == Ahead(s.m, t)
              && s.m.plain <= s'.m.plain
  {
    if Enabled(s, step) {
      AssertSafe(s, step);
      if step.RunEndOfBlock? {
        EndServes(s.m, t);
      } else if step.Issue? {
        DrawnIsExpected(s, step);
        var (c, s1) := Drawn(s, step.slave, step.api, step.hint);
        assert Ahead(s1.m, t) == Ahead(s.m, t);
        HandleServes(s1.m, c, t);
      }
    }
  }

  lemma {:induction false} RunFromKeeps(s: System, steps: seq<Step>)
    requires Inv(s)
    ensures Inv(Run(s, steps))
    decreases |steps|
  {
    if steps != [] {
      RunFromKeeps(s, steps[..|steps| - 1]);
      StepKeeps(Run(s, steps[..|steps| - 1]), steps[|steps| - 1]);
    }
  }

  /** A queued block waits for exactly the blocks ahead of it: it stays queued through fewer
      ends of block than Ahead, and the next end of block after them makes it the active one,
      whatever all slaves do in the meantime. */
  lemma {:induction false} BypassIsBounded(s: System, steps: seq<Step>, t: nat)
    requires Inv(s) && t in s.m.blocks && EndsRun(s, steps) < Ahead(s.m, t)
    ensures var s' := Run(s, steps);
            && t in s'.m.blocks
            && Ahead(s'.m, t) == Ahead(s.m, t) - EndsRun(s, steps)
            && (Ahead(s'.m, t) == 1 && s'.ended != [] ==> Next(s', RunEndOfBlock).m.active == t)
    decreases |steps|
  {
    hide Inv, Ahead, Next;
    RunFromKeeps(s, steps);
    if steps != [] {
      var init := steps[..|steps| - 1];
      RunFromKeeps(s, init);
      BypassIsBounded(s, init, t);
      StepServes(Run(s, init), steps[|steps| - 1], t);
    }
    StepServes(Run(s, steps), RunEndOfBlock, t);
  }

  /** A queued command without ticket waits for one end of block at most. */
  lemma PlainWaitsOnce(n: nat, steps: seq<Step>, c: Command)
    requires var s := Run(Initial(n), steps); c in s.m.plain && s.ended != []
    ensures var s := Run(Initial(n), steps);
            var s' := Next(s, RunEndOfBlock);
            c !in s'.m.plain && c in Cmds(s'.log) && c in Cmds(s'.wire)
  {
    hide Run, Inv, Next, MayEnd;
    var s := Run(Initial(n), steps);
    RunKeeps(n, steps);
    AssertSafe(s, RunEndOfBlock);
    EndForwardsPlain(s, c);
  }

  lemma EndForwardsPlain(s: System, c: Command)
    requires s.ended != [] && MayEnd(s.m) && c in s.m.plain
    ensures var s' := Next(s, RunEndOfBlock);
            c !in s'.m.plain && c in Cmds(s'.log) && c in Cmds(s'.wire)
  {
    var fs := EndOfBlock(s.m).1;
    var i :| 0 <= i < |s.m.plain| && s.m.plain[i] == c;
    assert fs[i] == Forward(c, false);
    assert Cmds(s.log + fs)[|s.log| + i] == c;
    assert Cmds(s.wire + fs)[|s.wire| + i] == c;
  }
}
