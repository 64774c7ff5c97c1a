/** Poll rounds of a Sputnik inverter over any run of its callbacks. */
module SputnikPollRuns {
  import opened SharedLine
  import opened SputnikMachine
  import opened SputnikPolling
  import opened SputnikInverter

  /** The inverter between two callbacks, with the commands considered in the current round and
      those asked by each telegram of the round. */
  datatype Poll = Poll(code: Code, stopped: bool, book: Book, round: seq<nat>, sent: seq<seq<nat>>)

  /** What one callback meets. The texts of the commands may differ from callback to callback. */
  datatype Turn = Turn(table: seq<Query>, considered: seq<bool>, err: int, connected: bool, shutdown: bool,
                       parsed: int, answered: set<nat>)

  const START := Poll(Init, false, Book([], {}), [], [])

  predicate Ready(n: nat, s: Poll, t: Turn) {
    !s.stopped && |t.table| == n && |t.considered| == n && Known(t.table, s.book.pending)
  }

  /** The commands a telegram is assembled from at this callback. */
  function Candidates(s: Poll, t: Turn): seq<nat> {
    if s.code == QueryPoll then s.book.pending + Chosen(t.considered) else s.book.pending
  }

  function TakenNow(n: nat, s: Poll, t: Turn): seq<nat>
    requires Ready(n, s, t)
  {
    Pack(t.table, Candidates(s, t)).taken
  }

  function NextPoll(n: nat, s: Poll, t: Turn): Poll {
    if !Ready(n, s, t) then s
    else
      var book := NextBook(s.code, s.book, t.table, t.considered, t.err, t.parsed, t.answered);
      var round := if s.code == QueryPoll then Candidates(s, t) else s.round;
      var sent := if s.code == QueryPoll then [TakenNow(n, s, t)]
                  else if s.code == SendQueries then s.sent + [TakenNow(n, s, t)] else s.sent;
      match React(s.code, Input(t.err, t.connected, t.shutdown, t.parsed, book.pending != []))
      case Schedule(next) => Poll(next, false, book, round, sent)
      case Use(_, _, next) => Poll(next, false, book, round, sent)
      case Stop => Poll(s.code, true, book, round, sent)
  }

  function PollRun(n: nat, turns: seq<Turn>): Poll
    decreases |turns|
  {
    if turns == [] then START else NextPoll(n, PollRun(n, turns[..|turns| - 1]), turns[|turns| - 1])
  }

  function Flat(sent: seq<seq<nat>>): seq<nat> {
    if sent == [] then [] else Flat(sent[..|sent| - 1]) + sent[|sent| - 1]
  }

  // ---------------------------------------------------------------- the invariant

  predicate InRound(code: Code) { code in {SendQueries, WaitSent, EvaluateReceive} }

  /** What has been asked in this round and what is pending make up the round. */
  predicate Balanced(s: Poll) {
    multiset(Flat(s.sent)) + multiset(s.book.pending) == multiset(s.round)
  }

  predicate PollInv(n: nat, s: Poll) {
    && (forall i | 0 <= i < |s.book.pending| :: s.book.pending[i] < n)
    && (s.code in {WaitSent, EvaluateReceive, Disconnected} || s.book.notAnswered == {})
    && (InRound(s.code) || s.code == Disconnected || s.book.pending == [])
    && (s.code == SendQueries ==> s.book.pending != [])
    && (InRound(s.code) ==> s.sent != [] && Balanced(s))
    && (s.code in {WaitSent, EvaluateReceive} ==> s.book.notAnswered == Elements(s.sent[|s.sent| - 1]))
  }

  lemma FlatOfMore(sent: seq<seq<nat>>, ids: seq<nat>)
    ensures multiset(Flat(sent + [ids])) == multiset(Flat(sent)) + multiset(ids)
  {
    assert (sent + [ids])[..|sent|] == sent;
  }

  lemma FlatOfOne(ids: seq<nat>)
    ensures Flat([ids]) == ids
  {
    assert [ids][..0] == [];
    assert [] + ids == ids;
  }

  /** Assembling a telegram moves commands from the pending ones to those asked. */
  lemma AskingMoves(table: seq<Query>, b: Book)
    requires Known(table, b.pending)
    ensures var taken := Pack(table, b.pending).taken;
            && multiset(b.pending) == multiset(taken) + multiset(Asking(table, b).pending)
            && Asking(table, b).notAnswered == b.notAnswered + Elements(taken)
  {
    hide PackFrom, Elements;
    TelegramKeepsLimits(table, b.pending);
    var p := Pack(table, b.pending);
    MergeKeepsAll(b.pending, p.taken, p.left);
  }

  lemma SendKeeps(n: nat, s: Poll, t: Turn)
    requires PollInv(n, s) && Ready(n, s, t) && s.code in {QueryPoll, SendQueries}
    ensures PollInv(n, NextPoll(n, s, t))
  {
    hide Asking, Pack, Elements, Flat;
    var b := s.book.(pending := Candidates(s, t));
    AskingMoves(t.table, b);
    var taken := TakenNow(n, s, t);
    FlatOfOne(taken);
    FlatOfMore(s.sent, taken);
    var s' := NextPoll(n, s, t);
    assert s'.book == Asking(t.table, b);
    if s.code == SendQueries {
      Moved(multiset(Flat(s.sent)), multiset(s.book.pending), multiset(taken), multiset(s'.book.pending));
    }
  }

  lemma Moved(a: multiset<nat>, b: multiset<nat>, c: multiset<nat>, d: multiset<nat>)
    requires b == c + d
    ensures a + b == (a + c) + d
  {
  }

  lemma OtherKeeps(n: nat, s: Poll, t: Turn)
    requires PollInv(n, s) && Ready(n, s, t) && s.code !in {QueryPoll, SendQueries}
    ensures PollInv(n, NextPoll(n, s, t))
  {
    hide Asking, Pack, Elements, Flat;
  }

  lemma {:induction false} PollRunKeeps(n: nat, turns: seq<Turn>)
    ensures PollInv(n, PollRun(n, turns))
    decreases |turns|
  {
    hide PollInv, NextPoll;
    if turns == [] {
      StartKeeps(n);
    } else {
      var s, t := PollRun(n, turns[..|turns| - 1]), turns[|turns| - 1];
      PollRunKeeps(n, turns[..|turns| - 1]);
      if !Ready(n, s, t) {
        NotReady(n, s, t);
      } else if s.code in {QueryPoll, SendQueries} {
        SendKeeps(n, s, t);
      } else {
        OtherKeeps(n, s, t);
      }
    }
  }

  lemma StartKeeps(n: nat)
    ensures PollInv(n, START)
  {
  }

  lemma NotReady(n: nat, s: Poll, t: Turn)
    requires !Ready(n, s, t)
    ensures NextPoll(n, s, t) == s
  {
  }

  // ---------------------------------------------------------------- the promises

  /** Whenever a telegram is built, no command of an earlier telegram is waiting for its answer;
      afterwards exactly the commands of this telegram are. */
  lemma OneTelegramAtATime(n: nat, turns: seq<Turn>, t: Turn)
    requires var s := PollRun(n, turns); Ready(n, s, t) && s.code in {QueryPoll, SendQueries}
    ensures var s := PollRun(n, turns);
            && s.book.notAnswered == {}
            && NextPoll(n, s, t).book.notAnswered == Elements(TakenNow(n, s, t))
  {
    hide PollRun, NextPoll, Pack;
    PollRunKeeps(n, turns);
    SendRecords(n, PollRun(n, turns), t);
  }

  lemma SendRecords(n: nat, s: Poll, t: Turn)
    requires PollInv(n, s) && Ready(n, s, t) && s.code in {QueryPoll, SendQueries}
    ensures NextPoll(n, s, t).book.notAnswered == Elements(TakenNow(n, s, t))
  {
    hide Asking, Pack, Elements, Flat;
    AskingMoves(t.table, s.book.(pending := Candidates(s, t)));
  }

  lemma {:induction false} ChosenOnce(considered: seq<bool>, k: nat)
    ensures multiset(Chosen(considered))[k] == if k < |considered| && considered[k] then 1 else 0
  {
    if considered != [] {
      var last := |considered| - 1;
      ChosenOnce(considered[..last], k);
      var more := if considered[last] then [last] else [];
      assert multiset(Chosen(considered[..last]) + more) == multiset(Chosen(considered[..last])) + multiset(more);
    }
  }

  lemma {:induction false} ChosenAscend(considered: seq<bool>)
    ensures var ids := Chosen(considered); forall i, j | 0 <= i < j < |ids| :: ids[i] < ids[j]
  {
    if considered != [] {
      var init := considered[..|considered| - 1];
      ChosenAscend(init);
      assert forall i | 0 <= i < |Chosen(init)| :: Chosen(init)[i] < |init|;
      assert forall i | 0 <= i < |Chosen(init)| :: Chosen(considered)[i] == Chosen(init)[i];
    }
  }

  /** The considered commands at the start of a round are the round, each once and in table order. */
  lemma RoundStarts(n: nat, turns: seq<Turn>, t: Turn, k: nat)
    requires var s := PollRun(n, turns); Ready(n, s, t) && s.code == QueryPoll
    ensures var round := NextPoll(n, PollRun(n, turns), t).round;
            && multiset(round)[k] == (if k < n && t.considered[k] then 1 else 0)
            && forall i, j | 0 <= i < j < |round| :: round[i] < round[j]
  {
    ChosenAscend(t.considered);
    hide PollRun, Chosen, Pack, Asking;
    PollRunKeeps(n, turns);
    var s := PollRun(n, turns);
    assert Candidates(s, t) == Chosen(t.considered);
    ChosenOnce(t.considered, k);
  }

  /** A round that ends has asked each of its commands exactly once. */
  lemma RoundIsComplete(n: nat, turns: seq<Turn>, t: Turn)
    requires var s := PollRun(n, turns);
             Ready(n, s, t) && s.code == EvaluateReceive && NextPoll(n, s, t).code == QueryPoll
    ensures var s := PollRun(n, turns); multiset(Flat(s.sent)) == multiset(s.round)
  {
    hide PollRun, Flat;
    PollRunKeeps(n, turns);
  }

  // ---------------------------------------------------------------- rounds are short

  /** At every callback each command of the table fits alone. */
  predicate SmallCommands(turns: seq<Turn>) {
    forall i | 0 <= i < |turns| :: forall k | 0 <= k < |turns[i].table| :: FitsAlone(turns[i].table[k])
  }

  /** No telegram of a round is empty, except the only one of an empty round. */
  predicate NoneEmpty(s: Poll) {
    forall i | 0 <= i < |s.sent| :: s.sent[i] == [] ==> s.round == [] && |s.sent| == 1
  }

  lemma {:induction false} FlatLength(sent: seq<seq<nat>>)
    requires forall i | 0 <= i < |sent| :: sent[i] != []
    ensures |sent| <= |Flat(sent)|
  {
    if sent != [] { FlatLength(sent[..|sent| - 1]); }
  }

  lemma TakesOne(table: seq<Query>, pending: seq<nat>)
    requires Known(table, pending) && pending != [] && forall k | 0 <= k < |table| :: FitsAlone(table[k])
    ensures Pack(table, pending).taken != []
  {
    hide Pack;
    TelegramKeepsLimits(table, pending);
  }

  /** Something pending comes from the round. */
  lemma RoundIsNotEmpty(n: nat, s: Poll)
    requires PollInv(n, s) && s.code == SendQueries
    ensures s.round != []
  {
    assert s.book.pending[0] in multiset(s.book.pending);
    assert s.book.pending[0] in multiset(s.round);
  }

  lemma StepHasNoneEmpty(n: nat, s: Poll, t: Turn)
    requires PollInv(n, s) && NoneEmpty(s) && Ready(n, s, t)
    requires forall k | 0 <= k < |t.table| :: FitsAlone(t.table[k])
    ensures NoneEmpty(NextPoll(n, s, t))
  {
    hide PollInv, Pack, Asking, FitsAlone, React;
    if s.code in {QueryPoll, SendQueries} && Candidates(s, t) != [] { TakesOne(t.table, Candidates(s, t)); }
    if s.code == SendQueries {
      RoundIsNotEmpty(n, s);
      HasPending(n, s);
    }
  }

  lemma HasPending(n: nat, s: Poll)
    requires PollInv(n, s) && s.code == SendQueries
    ensures s.book.pending != []
  {
  }

  lemma {:induction false} RunHasNoneEmpty(n: nat, turns: seq<Turn>)
    requires SmallCommands(turns)
    ensures NoneEmpty(PollRun(n, turns))
    decreases |turns|
  {
    hide PollInv, NextPoll, FitsAlone;
    if turns != [] {
      var init := turns[..|turns| - 1];
      var s, t := PollRun(n, init), turns[|turns| - 1];
      RunHasNoneEmpty(n, init);
      PollRunKeeps(n, init);
      if Ready(n, s, t) { StepHasNoneEmpty(n, s, t); } else { NotReady(n, s, t); }
    }
  }

  /** If every command fits alone, a round needs at most as many telegrams as it has commands, and
      one if there is none to ask. */
  lemma RoundIsShort(n: nat, turns: seq<Turn>)
    requires SmallCommands(turns) && InRound(PollRun(n, turns).code)
    ensures var s := PollRun(n, turns); |s.sent| <= if s.round == [] then 1 else |s.round|
  {
    hide PollRun, NextPoll, SmallCommands;
    RunHasNoneEmpty(n, turns);
    PollRunKeeps(n, turns);
    var s := PollRun(n, turns);
    assert |multiset(Flat(s.sent)) + multiset(s.book.pending)| == |multiset(s.round)|;
    if s.round != [] {
      FlatLength(s.sent);
    } else if |s.sent| > 1 {
      FlatLength(s.sent);
    }
  }
}
