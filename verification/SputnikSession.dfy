/** The session an inverter holds on the line: said of its commands, their results, and what its
    callbacks meet, not of its states. */
module SputnikSession {
  import opened Prelude
  import opened SharedLine
  import opened SharedLineRuns
  import opened SputnikMachine
  import opened SputnikLine

  /** What one callback meets. */
  datatype Seen = Seen(connected: bool, shutdown: bool, parsed: int, morePending: bool)

  /** A command on the line, its result, and the callbacks from its answer on, up to the one that issues
      the next command. The time before the first command counts as an exchange without command. */
  datatype Exchange = Exchange(asked: Option<(Api, Hint)>, result: Option<int>, callbacks: seq<Seen>)

  const BEGINNING := Exchange(None, Some(0), [])

  // ---------------------------------------------------------------- the law

  /** What stands for a disconnect on the line: only the line's owner may do it. */
  function Off(i: nat): (Api, Hint) { (if i == 0 then Disconnect else Noop, Plain) }

  /** After a failure, callback k looks at the connection, callback k + 2 at a requested shutdown. */
  function AfterFailure(i: nat, cs: seq<Seen>, k: nat): Option<(Api, Hint)> {
    if |cs| <= k then None
    else if cs[k].connected then (if |cs| == k + 1 then Some(Off(i)) else None)
    else if |cs| == k + 3 && !cs[k + 2].shutdown then Some((Connect, Plain))
    else None
  }

  /** The exchange leaves a connection on which a telegram can be sent or received. */
  predicate Good(e: Exchange) {
    && e.asked.Some? && e.result.Some? && e.result.value >= 0
    && (|| e.asked.value == (Connect, Plain)
        || e.asked.value == (Send, Request)
        || (e.asked.value == (Receive, Cease) && e.callbacks != [] && e.callbacks[0].parsed == 1))
  }

  /** The command that is due at the last callback of an answered exchange, if any. */
  function Due(i: nat, e: Exchange): Option<(Api, Hint)>
    requires e.result.Some?
  {
    var cs := e.callbacks;
    if e.asked.None? then
      if |cs| == 1 && !cs[0].shutdown then Some((Connect, Plain)) else None
    else if e.asked.value == (Connect, Plain) then
      if !Good(e) then AfterFailure(i, cs, 1) else if |cs| == 2 then Some((Send, Request)) else None
    else if e.asked.value == (Send, Request) then
      if |cs| != 1 then None else if Good(e) then Some((Receive, Cease)) else Some((Noop, Cease))
    else if e.asked.value == (Receive, Cease) then
      if !Good(e) then AfterFailure(i, cs, 1) else if |cs| == 2 then Some((Send, Request)) else None
    else if e.asked.value == (Noop, Cease) then AfterFailure(i, cs, 0)
    else if |cs| == 2 && !cs[1].shutdown then Some((Connect, Plain))
    else None
  }

  /** The callback that would connect has seen that a shutdown is requested. */
  predicate Over(i: nat, e: Exchange) {
    && e.result.Some? && e.callbacks != [] && e.callbacks[|e.callbacks| - 1].shutdown
    && var cs := e.callbacks;
       var calm := cs[..|cs| - 1] + [cs[|cs| - 1].(shutdown := false)];
       Due(i, e.(callbacks := calm)) == Some((Connect, Plain))
  }

  /** The next command is the one that is due. */
  predicate Follows(i: nat, h: seq<Exchange>, j: nat)
    requires j < |h| - 1
  {
    h[j].result.Some? && h[j + 1].asked.Some? && Due(i, h[j]) == h[j + 1].asked
  }

  /** The commands are issued when they are due, and only then; nothing happens before an answer, and
      nothing more when it is over. */
  predicate Lawful(i: nat, h: seq<Exchange>) {
    && h != [] && h[0].asked.None?
    && (forall j | 0 <= j < |h| - 1 :: Follows(i, h, j))
    && (forall j | 0 <= j < |h| :: OnTime(i, h[j]))
    && (h[|h| - 1].result.Some? ==> Due(i, h[|h| - 1]).None?)
  }

  /** No command was due, and it was not over, before the last callback. */
  predicate OnTime(i: nat, e: Exchange) {
    if e.result.None? then e.callbacks == []
    else forall k | 0 <= k < |e.callbacks| ::
           Due(i, e.(callbacks := e.callbacks[..k])).None? && !Over(i, e.(callbacks := e.callbacks[..k]))
  }

  // ---------------------------------------------------------------- the record of a run

  function WithLast(h: seq<Exchange>, e: Exchange): seq<Exchange>
    requires h != []
  {
    h[..|h| - 1] + [e]
  }

  /** What a step that leads from p to p' adds to the record of inverter i. */
  function Recorded(h: seq<Exchange>, p: Plant, step: PlantStep, p': Plant, i: nat): seq<Exchange>
    requires h != []
  {
    var e := h[|h| - 1];
    if !Possible(p, step) then h
    else if step.RunInverter? then
      if step.i != i then h
      else
        var seen := Seen(step.connected, step.shutdown, step.parsed, step.morePending);
        var h1 := WithLast(h, e.(callbacks := e.callbacks + [seen]));
        if |p'.line.issued| > |p.line.issued| then
          var c := p'.line.issued[|p'.line.issued| - 1];
          h1 + [Exchange(Some((c.api, c.hint)), None, [])]
        else h1
    else if |p'.line.answered| > |p.line.answered| then
      var (c, result) := p'.line.answered[|p'.line.answered| - 1];
      if c.slave == i then WithLast(h, e.(result := Some(result))) else h
    else h
  }

  function History(n: nat, steps: seq<PlantStep>, i: nat): (h: seq<Exchange>)
    ensures h != []
    decreases |steps|
  {
    if steps == [] then [BEGINNING]
    else
      var init := steps[..|steps| - 1];
      Recorded(History(n, init, i), PlantRun(Start(n), init), steps[|steps| - 1], PlantRun(Start(n), steps), i)
  }

  // ---------------------------------------------------------------- states and exchanges

  /** The state after a failure. */
  predicate FailedAt(cs: seq<Seen>, k: nat, v: Inverter) {
    if |cs| == k then v.code == Disconnected && !v.stopped
    else
      && k < |cs| <= k + 3 && !cs[k].connected
      && (|cs| == k + 1 ==> v.code == DisconnectedWait && !v.stopped)
      && (|cs| == k + 2 ==> v.code == Init && !v.stopped)
      && (|cs| == k + 3 ==> v.stopped && cs[k + 2].shutdown)
  }

  /** The state that belongs to an exchange. */
  predicate At(e: Exchange, v: Inverter) {
    var cs := e.callbacks;
    && (v.waiting.None? <==> e.result.Some?)
    && (e.result.None? ==> cs == [])
    && (e.result.Some? && e.asked.Some? && cs == [] ==> v.err == e.result.value)
    && if e.asked.None? then
         && e.result.Some?
         && if cs == [] then v.code == Init && !v.stopped else |cs| == 1 && v.stopped && cs[0].shutdown
       else if e.asked.value == (Connect, Plain) then
         if cs == [] then v.code == Wait4Connection && !v.stopped
         else if !Good(e) then FailedAt(cs, 1, v) else |cs| == 1 && v.code == QueryPoll && !v.stopped
       else if e.asked.value == (Send, Request) then cs == [] && v.code == WaitSent && !v.stopped
       else if e.asked.value == (Receive, Cease) then
         if cs == [] then v.code == EvaluateReceive && !v.stopped
         else if !Good(e) then FailedAt(cs, 1, v)
         else |cs| == 1 && v.code in {QueryPoll, SendQueries} && !v.stopped
       else if e.asked.value == (Noop, Cease) then FailedAt(cs, 0, v)
       else if |cs| == 0 then v.code == DisconnectedWait && !v.stopped
       else if |cs| == 1 then v.code == Init && !v.stopped
       else |cs| == 2 && v.stopped && cs[1].shutdown
  }

  /** One callback: what is due is issued, and nothing else. */
  lemma CallbackIsLawful(i: nat, e: Exchange, v: Inverter, seen: Seen)
    requires At(e, v) && Runnable(v)
    ensures var e' := e.(callbacks := e.callbacks + [seen]);
            match React(v.code, Input(v.err, seen.connected, seen.shutdown, seen.parsed, seen.morePending))
            case Schedule(next) =>
              At(e', Inverter(next, None, 0, false)) && Due(i, e').None?
            case Use(api, hint, next) =>
              && Due(i, e') == Some((EffectiveApi(i, api), hint))
              && At(Exchange(Some((EffectiveApi(i, api), hint)), None, []), Inverter(next, Some(0), 0, false))
            case Stop => At(e', v.(stopped := true)) && Due(i, e').None?
  {
    var e' := e.(callbacks := e.callbacks + [seen]);
    assert e.callbacks == [] ==> e'.callbacks == [seen];
  }

  lemma AtAnyCommand(e: Exchange, v: Inverter, k: nat)
    requires At(e, v) && v.waiting.Some?
    ensures At(e, v.(waiting := Some(k)))
  {
  }

  /** The state tells when it is over, and that nothing was due before. */
  lemma AtTellsAll(i: nat, e: Exchange, v: Inverter)
    requires At(e, v)
    ensures v.stopped <==> Over(i, e)
    ensures e.result.Some? ==> Due(i, e).None?
  {
  }

  lemma OneMoreCallback(i: nat, e: Exchange, v: Inverter, seen: Seen)
    requires At(e, v) && Runnable(v) && OnTime(i, e)
    ensures OnTime(i, e.(callbacks := e.callbacks + [seen]))
  {
    hide At, Due, Over;
    AtTellsAll(i, e, v);
    StoppedNot(e, v);
    var e' := e.(callbacks := e.callbacks + [seen]);
    forall k | 0 <= k < |e'.callbacks|
      ensures Due(i, e'.(callbacks := e'.callbacks[..k])).None? && !Over(i, e'.(callbacks := e'.callbacks[..k]))
    {
      if k < |e.callbacks| {
        assert e'.callbacks[..k] == e.callbacks[..k];
        assert e'.(callbacks := e'.callbacks[..k]) == e.(callbacks := e.callbacks[..k]);
      } else {
        assert e'.callbacks[..k] == e.callbacks;
        assert e'.(callbacks := e'.callbacks[..k]) == e;
      }
    }
  }

  lemma StoppedNot(e: Exchange, v: Inverter)
    requires At(e, v) && Runnable(v)
    ensures e.result.Some? && !v.stopped
  {
  }

  // ---------------------------------------------------------------- every run

  ghost predicate Told(i: nat, h: seq<Exchange>, p: Plant) {
    && h != [] && i < |p.inv| && Lawful(i, h) && At(h[|h| - 1], p.inv[i])
  }

  /** The line gets the command that the inverter chooses. */
  lemma ChosenIsIssued(p: Plant, step: PlantStep)
    requires PlantInv(p) && Possible(p, step) && step.RunInverter?
    ensures var p', a := PlantNext(p, step), Chosen(p, step);
            && p'.line.answered == p.line.answered
            && if a.Use? then
                 && |p'.line.issued| == |p.line.issued| + 1
                 && p'.line.issued[|p.line.issued|].api == EffectiveApi(step.i, a.api)
                 && p'.line.issued[|p.line.issued|].hint == a.hint
               else p'.line.issued == p.line.issued
  {
    hide PlantInv, Apply;
    if Chosen(p, step).Use? {
      var a := Chosen(p, step);
      IssuedByInverter(p, step);
      IssueStep(p.line, Issue(step.i, a.api, a.hint));
      DrawnAs(p.line, step.i, a.api, a.hint);
    }
  }

  lemma DrawnAs(s: System, i: nat, api: Api, hint: Hint)
    requires i < |s.current|
    ensures var c := Drawn(s, i, api, hint).0; c.api == EffectiveApi(i, api) && c.hint == hint
  {
  }

  /** An answer goes to the inverter that waits for it. */
  lemma AnswerIsAwaited(p: Plant, c: Command)
    requires PlantInv(p) && Moving(p.line, c)
    ensures c.slave < |p.inv| && p.inv[c.slave].waiting == Some(c.id)
  {
    hide Inv, Pairs, SingleSends, Phases, TicketHeld, Moving;
    MovingIsUnanswered(p.line, c);
    assert p.line.issued[c.id] == c;
  }

  lemma LineStepAnswers(p: Plant, step: PlantStep)
    requires PlantInv(p) && Possible(p, step) && !step.RunInverter?
    ensures var p' := PlantNext(p, step);
            && p'.line.issued == p.line.issued
            && if |p'.line.answered| > |p.line.answered| then
                 var (c, result) := p'.line.answered[|p'.line.answered| - 1];
                 && c.slave < |p.inv| && p.inv[c.slave].waiting.Some?
                 && p'.inv == p.inv[c.slave := p.inv[c.slave].(waiting := None, err := result)]
               else p'.inv == p.inv
  {
    hide Apply, Inv, Pairs, SingleSends, Phases, TicketHeld, Outstanding;
    match step
    case LineReply(k, result) =>
      ReplyStep(p.line, k, result);
      if !p.line.wire[k].toMaster { AnswerIsAwaited(p, p.line.wire[k].cmd); }
    case LineEndOfBlock =>
      assert MayEnd(p.line.m) && Diverted(p.line) by { EndIsSafe(p); }
      EndStep(p.line);
      AnswerIsAwaited(p, p.line.m.last.value);
  }

  lemma EndIsSafe(p: Plant)
    requires PlantInv(p) && p.line.ended != []
    ensures MayEnd(p.line.m) && Diverted(p.line)
  {
    AssertSafe(p.line, RunEndOfBlock);
  }

  lemma LawfulLast(i: nat, h: seq<Exchange>, e: Exchange)
    requires Lawful(i, h) && OnTime(i, e) && e.asked == h[|h| - 1].asked
    requires e.result.Some? ==> Due(i, e).None?
    ensures Lawful(i, WithLast(h, e))
  {
    hide Due, OnTime;
    var h' := WithLast(h, e);
    assert forall j | 0 <= j < |h'| :: h'[j] == if j < |h| - 1 then h[j] else e;
    forall j | 0 <= j < |h'| - 1 ensures Follows(i, h', j) { assert Follows(i, h, j); }
  }

  lemma LawfulMore(i: nat, h: seq<Exchange>, e: Exchange, asked: (Api, Hint))
    requires Lawful(i, h) && OnTime(i, e) && e.asked == h[|h| - 1].asked
    requires e.result.Some? && Due(i, e) == Some(asked)
    ensures Lawful(i, WithLast(h, e) + [Exchange(Some(asked), None, [])])
  {
    hide Due;
    var h' := WithLast(h, e) + [Exchange(Some(asked), None, [])];
    assert forall j | 0 <= j < |h'| ::
        h'[j] == if j < |h| - 1 then h[j] else if j == |h| - 1 then e else Exchange(Some(asked), None, []);
    forall j | 0 <= j < |h'| - 1 ensures Follows(i, h', j) { if j < |h| - 1 { assert Follows(i, h, j); } }
  }

  lemma RunIsTold(i: nat, h: seq<Exchange>, p: Plant, step: PlantStep)
    requires PlantInv(p) && Told(i, h, p) && Possible(p, step) && step.RunInverter? && step.i == i
    ensures Told(i, Recorded(h, p, step, PlantNext(p, step), i), PlantNext(p, step))
  {
    hide PlantInv, Lawful, OnTime, Due, At, Next, React, Over;
    var p' := PlantNext(p, step);
    var e, v := h[|h| - 1], p.inv[i];
    var seen := Seen(step.connected, step.shutdown, step.parsed, step.morePending);
    ChosenIsIssued(p, step);
    StoppedNot(e, v);
    CallbackIsLawful(i, e, v, seen);
    assert OnTime(i, e) by { LastOnTime(i, h); }
    OneMoreCallback(i, e, v, seen);
    var e' := e.(callbacks := e.callbacks + [seen]);
    match Chosen(p, step)
    case Schedule(next) => LawfulLast(i, h, e');
    case Stop => LawfulLast(i, h, e');
    case Use(api, hint, next) =>
      var asked := (EffectiveApi(i, api), hint);
      LawfulMore(i, h, e', asked);
      AtAnyCommand(Exchange(Some(asked), None, []), Inverter(next, Some(0), 0, false), |p.line.issued|);
  }

  lemma LastOnTime(i: nat, h: seq<Exchange>)
    requires Lawful(i, h)
    ensures OnTime(i, h[|h| - 1])
  {
  }

  /** The answer to a command. */
  lemma AnswerIsTold(i: nat, h: seq<Exchange>, p: Plant, p': Plant, result: int)
    requires Told(i, h, p) && p.inv[i].waiting.Some? && i < |p'.inv|
    requires p'.inv[i] == p.inv[i].(waiting := None, err := result)
    ensures Told(i, WithLast(h, h[|h| - 1].(result := Some(result))), p')
  {
    hide Lawful;
    var e' := h[|h| - 1].(result := Some(result));
    LastOnTime(i, h);
    LawfulLast(i, h, e');
  }

  lemma StepIsTold(i: nat, h: seq<Exchange>, p: Plant, step: PlantStep)
    requires PlantInv(p) && Told(i, h, p)
    ensures Told(i, Recorded(h, p, step, PlantNext(p, step), i), PlantNext(p, step))
  {
    hide PlantInv, Lawful, At, Next, React;
    if Possible(p, step) {
      var p' := PlantNext(p, step);
      if step.RunInverter? {
        if step.i == i { RunIsTold(i, h, p, step); }
      } else {
        LineStepAnswers(p, step);
        if |p'.line.answered| > |p.line.answered| {
          var (c, result) := p'.line.answered[|p'.line.answered| - 1];
          if c.slave == i { AnswerIsTold(i, h, p, p', result); }
        }
      }
    }
  }

  lemma {:induction false} HistoryIsTold(n: nat, steps: seq<PlantStep>, i: nat)
    requires i < n
    ensures Told(i, History(n, steps, i), PlantRun(Start(n), steps))
    decreases |steps|
  {
    hide Told, PlantInv, Recorded, PlantNext;
    if steps == [] {
      BeginningIsTold(n, i);
    } else {
      HistoryIsTold(n, steps[..|steps| - 1], i);
      PlantRunKeeps(n, steps[..|steps| - 1]);
      StepIsTold(i, History(n, steps[..|steps| - 1], i), PlantRun(Start(n), steps[..|steps| - 1]), steps[|steps| - 1]);
    }
  }

  lemma BeginningIsTold(n: nat, i: nat)
    requires i < n
    ensures Told(i, [BEGINNING], Start(n))
  {
  }

  /** The session law, for every run of any number of inverters: a connection that is up is used for
      telegrams, one that failed is not; a sent telegram is received, a failed one ends its block; a
      parsed answer leads to the next telegram on the same connection, any other to a new one; the
      connection is closed in between if and only if it is up; and an inverter stops exactly when it
      would connect and a shutdown is requested. */
  lemma SessionsAreLawful(n: nat, steps: seq<PlantStep>, i: nat)
    requires i < n
    ensures var h, p := History(n, steps, i), PlantRun(Start(n), steps);
            && Lawful(i, h) && i < |p.inv|
            && (p.inv[i].waiting.None? <==> h[|h| - 1].result.Some?)
            && (p.inv[i].stopped <==> Over(i, h[|h| - 1]))
  {
    hide PlantRun, History, Lawful, Over;
    HistoryIsTold(n, steps, i);
    var h, p := History(n, steps, i), PlantRun(Start(n), steps);
    AtTellsAll(i, h[|h| - 1], p.inv[i]);
  }

  // ---------------------------------------------------------------- what follows

  /** Telegrams need a connection: before each Send and each Receive there is a successful Connect,
      and every exchange since then has succeeded. */
  lemma {:induction false} TelegramsNeedAConnection(i: nat, h: seq<Exchange>, j: nat) returns (k: nat)
    requires Lawful(i, h) && j < |h| && h[j].asked.Some? && h[j].asked.value.0 in {Send, Receive}
    ensures k < j && h[k].asked == Some((Connect, Plain)) && forall x | k <= x < j :: Good(h[x])
    decreases j
  {
    hide OnTime, Due, Good;
    assert Follows(i, h, j - 1);
    TelegramAfterGood(i, h[j - 1]);
    k := j - 1;
    if h[k].asked != Some((Connect, Plain)) { k := TelegramsNeedAConnection(i, h, j - 1); }
  }

  lemma TelegramAfterGood(i: nat, e: Exchange)
    requires e.result.Some? && Due(i, e).Some? && Due(i, e).value.0 in {Send, Receive}
    ensures Good(e)
    ensures e.asked == Some((Connect, Plain)) || e.asked.value.0 in {Send, Receive}
  {
  }

  /** A block that was begun is ended: a Send is followed by the Receive of its answer, or by a Noop if
      it failed, and nothing else ends a block. */
  lemma BlocksAreEnded(i: nat, h: seq<Exchange>, j: nat)
    requires Lawful(i, h) && j + 1 < |h|
    ensures h[j].result.Some? && h[j + 1].asked.Some?
    ensures h[j].asked == Some((Send, Request)) ==>
              h[j + 1].asked == Some((if h[j].result.value >= 0 then Receive else Noop, Cease))
    ensures h[j + 1].asked.value.1 == Cease ==> h[j].asked == Some((Send, Request))
  {
    hide OnTime;
    assert Follows(i, h, j);
  }

  /** Nothing is issued after the end. */
  lemma OverIsTheEnd(i: nat, h: seq<Exchange>, j: nat)
    requires Lawful(i, h) && j < |h| && Over(i, h[j])
    ensures j == |h| - 1
  {
    if j < |h| - 1 {
      assert Follows(i, h, j);
      OverIsNotDue(i, h[j]);
    }
  }

  lemma OverIsNotDue(i: nat, e: Exchange)
    requires Over(i, e)
    ensures Due(i, e).None?
  {
  }
}
