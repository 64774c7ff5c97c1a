/** Packing the pending commands of a Sputnik inverter into telegrams. */
module SputnikPolling {
  import opened Prelude
  import opened SputnikTokenizer
  import opened SputnikTelegram
  import opened SputnikRoundTrip

  /** What a command asks at the moment, and how long its answer may get. Commands are known by
      their place in the inverter's table, as the source knows them by address. */
  datatype Query = Query(text: string, maxAnswer: nat)

  /** The room for commands in a telegram, and for the answers in its answer. */
  const ROOM: int := 254 - 22
  const ANSWER_ROOM: int := 255 - 31

  predicate Known(table: seq<Query>, pending: seq<nat>) { forall i | 0 <= i < |pending| :: pending[i] < |table| }

  predicate Fits(q: Query, room: int, answerRoom: int) { q.maxAnswer < answerRoom && |q.text| < room }

  /** Small enough to be asked alone. */
  predicate FitsAlone(q: Query) { Fits(q, ROOM, ANSWER_ROOM) }

  datatype Packed = Packed(taken: seq<nat>, left: seq<nat>, body: string, room: int, answerRoom: int)

  function Extended(body: string, text: string): string { (if body != "" then body + ";" else "") + text }

  /** One pass over the pending commands, taking each one that fits. */
  function PackFrom(table: seq<Query>, pending: seq<nat>, body: string, room: int, answerRoom: int): Packed
    requires Known(table, pending)
    decreases |pending|
  {
    if pending == [] then Packed([], [], body, room, answerRoom)
    else
      var q := table[pending[0]];
      if Fits(q, room, answerRoom) then
        var more := Extended(body, q.text);
        var p := PackFrom(table, pending[1..], more, room - (|more| - |body|), answerRoom - q.maxAnswer);
        p.(taken := [pending[0]] + p.taken)
      else
        var p := PackFrom(table, pending[1..], body, room, answerRoom);
        p.(left := [pending[0]] + p.left)
  }

  function Pack(table: seq<Query>, pending: seq<nat>): Packed
    requires Known(table, pending)
  {
    PackFrom(table, pending, "", ROOM, ANSWER_ROOM)
  }

  /** What assemblequerystring returns. */
  function Assembled(table: seq<Query>, pending: seq<nat>, own: nat, comm: nat): string
    requires Known(table, pending)
  {
    if pending == [] then "" else Telegram(own, comm, Pack(table, pending).body)
  }

  // ---------------------------------------------------------------- what is taken and what is left

  /** all is a merge of a and b that keeps their orders. */
  predicate Interleaves(all: seq<nat>, a: seq<nat>, b: seq<nat>)
    decreases |all|
  {
    if all == [] then a == [] && b == []
    else
      || (a != [] && a[0] == all[0] && Interleaves(all[1..], a[1..], b))
      || (b != [] && b[0] == all[0] && Interleaves(all[1..], a, b[1..]))
  }

  /** Each pending command is taken or left, once, in the old order. */
  lemma {:induction false} PackPartitions(table: seq<Query>, pending: seq<nat>, body: string, room: int,
                                          answerRoom: int)
    requires Known(table, pending)
    ensures var p := PackFrom(table, pending, body, room, answerRoom); Interleaves(pending, p.taken, p.left)
    decreases |pending|
  {
    if pending != [] {
      var q := table[pending[0]];
      var rest := pending[1..];
      if Fits(q, room, answerRoom) {
        var more := Extended(body, q.text);
        PackPartitions(table, rest, more, room - (|more| - |body|), answerRoom - q.maxAnswer);
        var p := PackFrom(table, rest, more, room - (|more| - |body|), answerRoom - q.maxAnswer);
        assert ([pending[0]] + p.taken)[1..] == p.taken;
      } else {
        PackPartitions(table, rest, body, room, answerRoom);
        var p := PackFrom(table, rest, body, room, answerRoom);
        assert ([pending[0]] + p.left)[1..] == p.left;
      }
    }
  }

  lemma {:induction false} MergeKeepsAll(all: seq<nat>, a: seq<nat>, b: seq<nat>)
    requires Interleaves(all, a, b)
    ensures multiset(all) == multiset(a) + multiset(b) && |all| == |a| + |b|
    decreases |all|
  {
    if all != [] {
      assert all == [all[0]] + all[1..];
      if a != [] && a[0] == all[0] && Interleaves(all[1..], a[1..], b) {
        assert a == [a[0]] + a[1..];
        MergeKeepsAll(all[1..], a[1..], b);
      } else {
        assert b == [b[0]] + b[1..];
        MergeKeepsAll(all[1..], a, b[1..]);
      }
    }
  }

  function Answers(table: seq<Query>, ids: seq<nat>): nat
    requires Known(table, ids)
  {
    if ids == [] then 0 else table[ids[0]].maxAnswer + Answers(table, ids[1..])
  }

  /** The budgets: the body grows by what the room shrinks, and neither room is used up. */
  lemma {:induction false} PackStaysWithin(table: seq<Query>, pending: seq<nat>, body: string, room: int,
                                           answerRoom: int)
    requires Known(table, pending) && room >= 0 && answerRoom > 0
    ensures var p := PackFrom(table, pending, body, room, answerRoom);
            && Known(table, p.taken) && Known(table, p.left)
            && |p.body| + p.room == |body| + room && 0 <= p.room <= room
            && p.answerRoom + Answers(table, p.taken) == answerRoom && 0 < p.answerRoom
    decreases |pending|
  {
    if pending != [] {
      var q := table[pending[0]];
      var rest := pending[1..];
      if Fits(q, room, answerRoom) {
        var more := Extended(body, q.text);
        PackStaysWithin(table, rest, more, room - (|more| - |body|), answerRoom - q.maxAnswer);
        var p := PackFrom(table, rest, more, room - (|more| - |body|), answerRoom - q.maxAnswer);
        assert ([pending[0]] + p.taken)[1..] == p.taken;
      } else {
        PackStaysWithin(table, rest, body, room, answerRoom);
      }
    }
  }

  /** Nothing that is left would fit into the room that is left. */
  lemma {:induction false} PackIsMaximal(table: seq<Query>, pending: seq<nat>, body: string, room: int, answerRoom: int)
    requires Known(table, pending) && room >= 0 && answerRoom > 0
    ensures var p := PackFrom(table, pending, body, room, answerRoom);
            forall k <- p.left :: k < |table| && !Fits(table[k], p.room, p.answerRoom)
    decreases |pending|
  {
    if pending != [] {
      var q := table[pending[0]];
      var rest := pending[1..];
      if Fits(q, room, answerRoom) {
        var more := Extended(body, q.text);
        PackIsMaximal(table, rest, more, room - (|more| - |body|), answerRoom - q.maxAnswer);
      } else {
        PackIsMaximal(table, rest, body, room, answerRoom);
        PackStaysWithin(table, rest, body, room, answerRoom);
      }
    }
  }

  /** Every telegram keeps the limits of the protocol: at most 251 bytes are announced, for answers
      of less than 224 bytes; a command is left only if it would exceed one of these limits; and the
      first command that fits alone is always taken. */
  lemma TelegramKeepsLimits(table: seq<Query>, pending: seq<nat>)
    requires Known(table, pending)
    ensures var p := Pack(table, pending);
            && Interleaves(pending, p.taken, p.left) && Known(table, p.taken) && Known(table, p.left)
            && Announced(p.body) <= 251 && Answers(table, p.taken) < ANSWER_ROOM
            && (forall k <- p.left :: k < |table| && !Fits(table[k], p.room, p.answerRoom))
            && (forall k <- p.left :: k < |table| && (|p.body| + |table[k].text| >= 232
                                                      || Answers(table, p.taken) + table[k].maxAnswer >= 224))
    ensures pending != [] && FitsAlone(table[pending[0]]) ==>
              Pack(table, pending).taken != [] && Pack(table, pending).taken[0] == pending[0]
  {
    PackPartitions(table, pending, "", ROOM, ANSWER_ROOM);
    PackStaysWithin(table, pending, "", ROOM, ANSWER_ROOM);
    PackIsMaximal(table, pending, "", ROOM, ANSWER_ROOM);
  }

  // ---------------------------------------------------------------- the text of a telegram

  predicate Words(s: string) { s != "" && Body(s) && Tokens(";", s) != [] }

  /** Every command asks for something, in the letters a telegram may carry. */
  predicate Askable(table: seq<Query>) { forall i | 0 <= i < |table| :: Words(table[i].text) }

  /** The single commands asked for, in order. A text may hold several, as "BDN;SWV" does. */
  function Asked(table: seq<Query>, ids: seq<nat>): seq<string>
    requires Known(table, ids)
  {
    if ids == [] then [] else Tokens(";", table[ids[0]].text) + Asked(table, ids[1..])
  }

  lemma ExtendedTokens(body: string, text: string)
    requires Body(body) && Words(text)
    ensures Body(Extended(body, text)) && Extended(body, text) != ""
    ensures Tokens(";", Extended(body, text)) == Tokens(";", body) + Tokens(";", text)
  {
    hide Tokens;
    if body != "" {
      assert Extended(body, text) == body + [';'] + text;
      TokensSplit(";", body, ';', text);
    } else {
      assert Extended(body, text) == text;
      NoTokens(";");
    }
  }

  lemma {:induction false} PackedTokens(table: seq<Query>, pending: seq<nat>, body: string, room: int, answerRoom: int)
    requires Known(table, pending) && Askable(table) && Body(body) && room >= 0 && answerRoom > 0
    ensures var p := PackFrom(table, pending, body, room, answerRoom);
            Known(table, p.taken) && Body(p.body) && Tokens(";", p.body) == Tokens(";", body) + Asked(table, p.taken)
    decreases |pending|
  {
    hide Tokens, Body, Words, Fits, Extended;
    PackStaysWithin(table, pending, body, room, answerRoom);
    if pending != [] {
      var q := table[pending[0]];
      var rest := pending[1..];
      if Fits(q, room, answerRoom) {
        var more := Extended(body, q.text);
        ExtendedTokens(body, q.text);
        RoomLeft(body, q, room, answerRoom);
        PackedTokens(table, rest, more, room - (|more| - |body|), answerRoom - q.maxAnswer);
        var p := PackFrom(table, rest, more, room - (|more| - |body|), answerRoom - q.maxAnswer);
        assert ([pending[0]] + p.taken)[1..] == p.taken;
      } else {
        PackedTokens(table, rest, body, room, answerRoom);
      }
    }
  }

  lemma RoomLeft(body: string, q: Query, room: int, answerRoom: int)
    requires Fits(q, room, answerRoom)
    ensures room - (|Extended(body, q.text)| - |body|) >= 0 && answerRoom - q.maxAnswer > 0
  {
  }

  /** The telegram for any pending commands of which the first fits alone passes every check of the
      simulator at the other end, which finds the sender and exactly the taken commands, in order. */
  lemma QueryReachesSimulator(table: seq<Query>, pending: seq<nat>, own: nat, comm: nat)
    requires Known(table, pending) && Askable(table) && own <= 0xFF && comm <= 0xFF
    requires pending != [] && FitsAlone(table[pending[0]])
    ensures var taken := Pack(table, pending).taken;
            && Known(table, taken) && taken != [] && taken[0] == pending[0]
            && SimulatorCheck(comm, Assembled(table, pending, own, comm)) == Some((own, Asked(table, taken)))
  {
    hide Tokens, SimulatorCheck, Telegram, PackFrom;
    TelegramKeepsLimits(table, pending);
    PackedTokens(table, pending, "", ROOM, ANSWER_ROOM);
    NoTokens(";");
    var p := Pack(table, pending);
    assert Words(table[p.taken[0]].text);
    assert Tokens(";", p.body) == Asked(table, p.taken);
    QueryIsAccepted(own, comm, p.body);
  }

  // ---------------------------------------------------------------- telegram after telegram

  /** One table for each telegram: the texts and answer lengths of the commands may change between
      telegrams, the commands do not. */
  type Tables = nat -> seq<Query>

  ghost predicate SameCommands(tables: Tables) { forall m: nat :: |tables(m)| == |tables(0)| }

  /** What is pending after n more telegrams. */
  ghost function After(tables: Tables, pending: seq<nat>, n: nat): (left: seq<nat>)
    requires SameCommands(tables) && Known(tables(0), pending)
    ensures Known(tables(0), left)
    decreases n
  {
    if n == 0 then pending
    else
      var before := After(tables, pending, n - 1);
      assert |tables(n - 1)| == |tables(0)|;
      TelegramKeepsLimits(tables(n - 1), before);
      Pack(tables(n - 1), before).left
  }

  /** Each of the commands can be asked alone, with its text and answer length at this telegram. */
  predicate AllFitAlone(table: seq<Query>, pending: seq<nat>)
    requires Known(table, pending)
  {
    forall i | 0 <= i < |pending| :: FitsAlone(table[pending[i]])
  }

  lemma {:induction false} MergeMembers(all: seq<nat>, a: seq<nat>, b: seq<nat>)
    requires Interleaves(all, a, b)
    ensures forall x :: x in all <==> x in a || x in b
  {
    MergeKeepsAll(all, a, b);
    forall x ensures x in all <==> x in a || x in b {
      assert x in all <==> x in multiset(all);
      assert x in a <==> x in multiset(a);
      assert x in b <==> x in multiset(b);
    }
  }

  /** Where all commands fit alone, a telegram takes at least one, and what is left was pending. */
  lemma TelegramTakesOne(table: seq<Query>, pending: seq<nat>)
    requires Known(table, pending)
    ensures var left := Pack(table, pending).left;
            && (forall x <- left :: x in pending) && |left| <= |pending|
            && (pending != [] && AllFitAlone(table, pending) ==> |left| < |pending|)
  {
    hide FitsAlone, PackFrom;
    TelegramKeepsLimits(table, pending);
    var p := Pack(table, pending);
    MergeKeepsAll(pending, p.taken, p.left);
    MergeMembers(pending, p.taken, p.left);
  }

  lemma {:induction false} AllAreSent(tables: Tables, pending: seq<nat>, n: nat)
    requires SameCommands(tables) && Known(tables(0), pending)
    requires forall m: nat :: |tables(m)| == |tables(0)| && AllFitAlone(tables(m), pending)
    ensures var left := After(tables, pending, n);
            (forall x <- left :: x in pending) && (left == [] || |left| + n <= |pending|)
    decreases n
  {
    hide Pack, FitsAlone;
    if n > 0 {
      AllAreSent(tables, pending, n - 1);
      var left := After(tables, pending, n - 1);
      TelegramTakesOne(tables(n - 1), left);
      forall i | 0 <= i < |left| ensures FitsAlone(tables(n - 1)[left[i]]) { assert left[i] in pending; }
    }
  }

  lemma {:induction false} UnfitStays(tables: Tables, pending: seq<nat>, n: nat, k: nat)
    requires SameCommands(tables) && Known(tables(0), pending) && k in pending && k < |tables(0)|
    requires forall m: nat :: |tables(m)| == |tables(0)| && !FitsAlone(tables(m)[k])
    ensures k in After(tables, pending, n)
    decreases n
  {
    hide PackFrom, FitsAlone;
    if n > 0 {
      UnfitStays(tables, pending, n - 1, k);
      UnfitIsLeft(tables(n - 1), After(tables, pending, n - 1), "", ROOM, ANSWER_ROOM, k);
    }
  }

  lemma {:induction false} UnfitIsLeft(table: seq<Query>, pending: seq<nat>, body: string, room: int, answerRoom: int,
                                       k: nat)
    requires Known(table, pending) && k in pending && k < |table| && !FitsAlone(table[k])
    requires room <= ROOM && answerRoom <= ANSWER_ROOM
    ensures k in PackFrom(table, pending, body, room, answerRoom).left
    decreases |pending|
  {
    var q := table[pending[0]];
    var rest := pending[1..];
    if Fits(q, room, answerRoom) {
      var more := Extended(body, q.text);
      UnfitIsLeft(table, rest, more, room - (|more| - |body|), answerRoom - q.maxAnswer, k);
    } else if k != pending[0] {
      UnfitIsLeft(table, rest, body, room, answerRoom, k);
    }
  }

  /** A command is always small enough to be asked alone, or never. */
  ghost predicate Steady(tables: Tables) {
    SameCommands(tables)
    && forall m: nat, k: nat | k < |tables(m)| == |tables(0)| :: FitsAlone(tables(m)[k]) <==> FitsAlone(tables(0)[k])
  }

  /** Repeated telegrams ask every pending command, in at most as many telegrams as commands, if each
      fits alone at every telegram; one that never does stays pending for ever. Where a command
      always fits alone or never, the commands are asked if and only if each of them fits. */
  lemma PollingEnds(tables: Tables, pending: seq<nat>)
    requires SameCommands(tables) && Known(tables(0), pending)
    ensures (forall m: nat :: |tables(m)| == |tables(0)| && AllFitAlone(tables(m), pending)) ==>
              After(tables, pending, |pending|) == []
    ensures (exists n: nat :: After(tables, pending, n) == []) ==>
              forall k <- pending :: exists m: nat :: k < |tables(m)| && FitsAlone(tables(m)[k])
    ensures Steady(tables) ==>
              (AllFitAlone(tables(0), pending) <==> exists n: nat :: After(tables, pending, n) == [])
  {
    hide After, FitsAlone;
    if forall m: nat :: |tables(m)| == |tables(0)| && AllFitAlone(tables(m), pending) {
      AllAreSent(tables, pending, |pending|);
    }
    if n: nat :| After(tables, pending, n) == [] { SentHasFitted(tables, pending, n); }
    if Steady(tables) { SteadyPollingEnds(tables, pending); }
  }

  lemma SentHasFitted(tables: Tables, pending: seq<nat>, n: nat)
    requires SameCommands(tables) && Known(tables(0), pending) && After(tables, pending, n) == []
    ensures forall k <- pending :: exists m: nat :: k < |tables(m)| && FitsAlone(tables(m)[k])
  {
    hide After, FitsAlone;
    forall k | k in pending ensures exists m: nat :: k < |tables(m)| && FitsAlone(tables(m)[k]) {
      if forall m: nat :: |tables(m)| == |tables(0)| && !FitsAlone(tables(m)[k]) {
        UnfitStays(tables, pending, n, k);
        assert false;
      }
      var m: nat :| |tables(m)| != |tables(0)| || FitsAlone(tables(m)[k]);
      assert k < |tables(m)| && FitsAlone(tables(m)[k]);
    }
  }

  lemma SteadyPollingEnds(tables: Tables, pending: seq<nat>)
    requires Steady(tables) && Known(tables(0), pending)
    ensures AllFitAlone(tables(0), pending) <==> exists n: nat :: After(tables, pending, n) == []
  {
    hide After, FitsAlone;
    if AllFitAlone(tables(0), pending) {
      forall m: nat ensures |tables(m)| == |tables(0)| && AllFitAlone(tables(m), pending) {
        assert |tables(m)| == |tables(0)|;
      }
      AllAreSent(tables, pending, |pending|);
    }
    if n: nat :| After(tables, pending, n) == [] {
      SentHasFitted(tables, pending, n);
      forall i | 0 <= i < |pending| ensures FitsAlone(tables(0)[pending[i]]) {
        var k := pending[i];
        assert k in pending;
        var m: nat :| k < |tables(m)| && FitsAlone(tables(m)[k]);
        assert |tables(m)| == |tables(0)|;
      }
    }
  }
}
