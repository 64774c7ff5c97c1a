/** The Sputnik inverter: its pending and unanswered commands from poll to poll. */
module SputnikInverter {
  import opened Prelude
  import opened SharedLine
  import opened SputnikMachine
  import opened SputnikTokenizer
  import opened SputnikTelegram
  import opened SputnikPolling

  // ---------------------------------------------------------------- evaluating an answer

  /** How the commands of the table react to a token, and to the parts of an answer. */
  datatype Handlers = Handlers(handled: (nat, string) -> bool, accepts: (nat, seq<string>) -> bool)

  /** The first command from k on that handles the token. */
  function Handler(h: Handlers, n: nat, k: nat, token: string): (r: Option<nat>)
    ensures r.Some? ==> k <= r.value < n && h.handled(r.value, token)
    ensures forall j | k <= j < (if r.Some? then r.value else n) :: !h.handled(j, token)
    decreases n - k
  {
    if k >= n then None else if h.handled(k, token) then Some(k) else Handler(h, n, k + 1, token)
  }

  const PARTS := "=,"

  /** Command k is responsible for this data token. */
  predicate Responsible(h: Handlers, n: nat, field: string, k: nat) {
    Tokens(PARTS, field) != [] && Handler(h, n, 0, Tokens(PARTS, field)[0]) == Some(k)
  }

  predicate AcceptedBy(h: Handlers, n: nat, field: string, k: nat) {
    Responsible(h, n, field, k) && h.accepts(k, Tokens(PARTS, field))
  }

  predicate RejectedBy(h: Handlers, n: nat, field: string, k: nat) {
    Responsible(h, n, field, k) && !h.accepts(k, Tokens(PARTS, field))
  }

  ghost predicate Answered(h: Handlers, n: nat, fields: seq<string>, k: nat) {
    exists i :: 0 <= i < |fields| && AcceptedBy(h, n, fields[i], k)
  }

  /** Some data token was refused by the command responsible for it. */
  ghost predicate Refused(h: Handlers, n: nat, fields: seq<string>) {
    exists i, k: nat :: 0 <= i < |fields| && k < n && RejectedBy(h, n, fields[i], k)
  }

  // ---------------------------------------------------------------- one callback on values

  datatype Book = Book(pending: seq<nat>, notAnswered: set<nat>)

  function Elements(s: seq<nat>): set<nat> { set x | x in s }

  function Asking(table: seq<Query>, b: Book): (r: Book)
    requires Known(table, b.pending)
    ensures Known(table, r.pending)
  {
    TelegramKeepsLimits(table, b.pending);
    var p := Pack(table, b.pending);
    Book(p.left, b.notAnswered + Elements(p.taken))
  }

  /** The commands that are considered for a new round: those whose flag is set, in table order. */
  function Chosen(considered: seq<bool>): (ids: seq<nat>)
    ensures forall i | 0 <= i < |ids| :: ids[i] < |considered|
  {
    if considered == [] then []
    else Chosen(considered[..|considered| - 1]) + if considered[|considered| - 1] then [|considered| - 1] else []
  }

  /** The book after a callback; `parsed` is the result of parsing, `answered` the commands whose
      answers were accepted. */
  function NextBook(code: Code, b: Book, table: seq<Query>, considered: seq<bool>, err: int, parsed: int,
                    answered: set<nat>): (r: Book)
    requires Known(table, b.pending) && |considered| == |table|
    ensures Known(table, r.pending)
  {
    match code
    case Disconnected => Book([], {})
    case QueryPoll => Asking(table, b.(pending := b.pending + Chosen(considered)))
    case SendQueries => Asking(table, b)
    case EvaluateReceive =>
      if err < 0 then b
      else if parsed != 1 then b.(notAnswered := b.notAnswered - answered)
      else b.(notAnswered := {})
    case _ => b
  }

  /** The result of parsereceivedstring. */
  ghost function Parsed(own: nat, comm: nat, h: Handlers, n: nat, rcvd: string): int {
    match Judge(own, comm, rcvd)
    case Bad => -1
    case NotForUs => 0
    case Data(fields) => if Refused(h, n, fields) then -1 else 1
  }

  /** The commands whose answers are accepted. */
  ghost function AnsweredBy(own: nat, comm: nat, h: Handlers, n: nat, rcvd: string): set<nat> {
    var v := Judge(own, comm, rcvd);
    if v.Data? then set k: nat | k < n && Answered(h, n, v.fields, k) else {}
  }

  /** What is still to be done from `it` on leads to the goal. */
  ghost predicate Underway(table: seq<Query>, goal: Packed, pending: seq<nat>, it: nat, taken: seq<nat>, body: string,
                           room: int, answerRoom: int)
    requires Known(table, pending) && it <= |pending|
  {
    var p := PackFrom(table, pending[it..], body, room, answerRoom);
    goal == p.(taken := taken + p.taken, left := pending[..it] + p.left)
  }

  lemma PackStarts(table: seq<Query>, pending: seq<nat>)
    requires Known(table, pending)
    ensures Underway(table, Pack(table, pending), pending, 0, [], "", ROOM, ANSWER_ROOM)
  {
    hide PackFrom;
    assert pending[0..] == pending;
    var p := Pack(table, pending);
    assert [] + p.taken == p.taken && pending[..0] + p.left == p.left;
  }

  lemma PackGoesOn(table: seq<Query>, goal: Packed, pending: seq<nat>, it: nat, taken: seq<nat>, body: string,
                   room: int, answerRoom: int)
    requires Known(table, pending) && it < |pending|
    requires Underway(table, goal, pending, it, taken, body, room, answerRoom)
    ensures var q := table[pending[it]];
            var more := Extended(body, q.text);
            if Fits(q, room, answerRoom) then
              Underway(table, goal, pending[..it] + pending[it + 1..], it, taken + [pending[it]], more,
                       room - (|more| - |body|), answerRoom - q.maxAnswer)
            else Underway(table, goal, pending, it + 1, taken, body, room, answerRoom)
  {
    var rest := pending[it + 1..];
    assert pending[it..][0] == pending[it] && pending[it..][1..] == rest;
    var q := table[pending[it]];
    if Fits(q, room, answerRoom) {
      var shorter := pending[..it] + rest;
      assert shorter[it..] == rest && shorter[..it] == pending[..it];
      var more := Extended(body, q.text);
      var p := PackFrom(table, rest, more, room - (|more| - |body|), answerRoom - q.maxAnswer);
      assert taken + ([pending[it]] + p.taken) == (taken + [pending[it]]) + p.taken;
    } else {
      var p := PackFrom(table, rest, body, room, answerRoom);
      assert pending[..it] + ([pending[it]] + p.left) == pending[..it + 1] + p.left;
    }
  }

  lemma PackEnds(table: seq<Query>, goal: Packed, pending: seq<nat>, taken: seq<nat>, body: string, room: int,
                 answerRoom: int)
    requires Known(table, pending) && Underway(table, goal, pending, |pending|, taken, body, room, answerRoom)
    ensures goal == Packed(taken, pending, body, room, answerRoom)
  {
    assert pending[|pending|..] == [] && pending[..|pending|] == pending;
  }

  class Inverter {
    const own: nat
    const comm: nat
    var table: seq<Query>
    var pending: seq<nat>
    var notAnswered: set<nat>

    predicate Valid()
      reads this
    {
      Known(table, pending)
    }

    function ToBook(): Book
      reads this
    {
      Book(pending, notAnswered)
    }

    constructor (own: nat, comm: nat, table: seq<Query>)
      ensures Valid() && this.own == own && this.comm == comm && this.table == table
      ensures ToBook() == Book([], {})
    {
      this.own, this.comm, this.table := own, comm, table;
      pending, notAnswered := [], {};
    }

    /** CMD_QUERY_POLL before it falls through to CMD_SEND_QUERIES. */
    method CollectQueries(considered: seq<bool>)
      requires Valid() && |considered| == |table|
      modifies `pending
      ensures Valid() && pending == old(pending) + Chosen(considered)
    {
      var i := 0;
      assert pending + Chosen(considered[..0]) == pending;
      while i < |table|
        invariant 0 <= i <= |table| && Valid()
        invariant pending == old(pending) + Chosen(considered[..i])
      {
        assert considered[..i + 1][..i] == considered[..i];
        if considered[i] { pending := pending + [i]; }
        i := i + 1;
      }
      assert considered[..i] == considered;
    }

    /** The loop of assemblequerystring; `it` stands at the command looked at. */
    method TakeQueries() returns (telegram: string)
      requires Valid()
      modifies `pending, `notAnswered
      ensures Valid() && ToBook() == Asking(table, old(ToBook()))
      ensures telegram == Pack(table, old(pending)).body
    {
      hide Underway, PackFrom;
      telegram := "";
      var telegramLen, expectedAnswerLen := ROOM, ANSWER_ROOM;
      var it := 0;
      ghost var goal := Pack(table, pending);
      ghost var taken: seq<nat> := [];
      PackStarts(table, pending);
      while it < |pending|
        invariant it <= |pending| && Valid()
        invariant Underway(table, goal, pending, it, taken, telegram, telegramLen, expectedAnswerLen)
        invariant notAnswered == old(notAnswered) + Elements(taken)
        decreases |pending| - it
      {
        var q := table[pending[it]];
        PackGoesOn(table, goal, pending, it, taken, telegram, telegramLen, expectedAnswerLen);
        if q.maxAnswer < expectedAnswerLen && |q.text| < telegramLen {
          if telegram != "" {
            telegram := telegram + ";";
            telegramLen := telegramLen - 1;
          }
          telegram := telegram + q.text;
          telegramLen := telegramLen - |q.text|;
          expectedAnswerLen := expectedAnswerLen - q.maxAnswer;
          notAnswered := notAnswered + {pending[it]};
          taken := taken + [pending[it]];
          pending := pending[..it] + pending[it + 1..];
        } else {
          it := it + 1;
        }
      }
      PackEnds(table, goal, pending, taken, telegram, telegramLen, expectedAnswerLen);
    }

    method AssembleQueryString() returns (telegram: string)
      requires Valid()
      modifies `pending, `notAnswered
      ensures Valid() && ToBook() == Asking(table, old(ToBook()))
      ensures telegram == Assembled(table, old(pending), own, comm)
    {
      if pending == [] { return ""; }
      var body := TakeQueries();
      PortLength();
      var len := |Printed(QUERY, 1) + ":"| + |body| + 10 + 6;
      telegram := Header(own, comm, len) + body + "|";
      var chksum := CalcChecksum(telegram + "\0", |telegram|);
      telegram := Seal(telegram, chksum);
    }

    /** What the responsible command makes of the parts of one data token. */
    method HandleToken(h: Handlers, field: string, ret: int) returns (r: int)
      requires |field| < NPOS
      modifies `notAnswered
      ensures r == if exists k: nat :: k < |table| && RejectedBy(h, |table|, field, k) then -1 else ret
      ensures notAnswered == old(notAnswered) - set k: nat | k < |table| && AcceptedBy(h, |table|, field, k)
    {
      r := ret;
      var subtokens := Tokenizer(PARTS, field);
      if subtokens == [] { return; }
      ghost var who := Handler(h, |table|, 0, subtokens[0]);
      var k := 0;
      while k < |table|
        invariant 0 <= k <= |table| && r == ret && notAnswered == old(notAnswered)
        invariant Handler(h, |table|, k, subtokens[0]) == who
      {
        if h.handled(k, subtokens[0]) {
          var result := h.accepts(k, subtokens);
          if !result {
            assert RejectedBy(h, |table|, field, k);
            r := -1;
          } else {
            assert AcceptedBy(h, |table|, field, k);
            notAnswered := notAnswered - {k};
          }
          return;
        }
        k := k + 1;
      }
    }

    /** The part of parsereceivedstring behind its checks. */
    method HandleFields(h: Handlers, fields: seq<string>) returns (ret: int)
      requires forall i | 0 <= i < |fields| :: |fields[i]| < NPOS
      modifies `notAnswered
      ensures ret == if Refused(h, |table|, fields) then -1 else 1
      ensures notAnswered == old(notAnswered) - set k: nat | k < |table| && Answered(h, |table|, fields, k)
    {
      ret := 1;
      var i := 0;
      while i < |fields|
        invariant 0 <= i <= |fields|
        invariant ret == if Refused(h, |table|, fields[..i]) then -1 else 1
        invariant notAnswered == old(notAnswered) - set k: nat | k < |table| && Answered(h, |table|, fields[..i], k)
      {
        ghost var before := notAnswered;
        ret := HandleToken(h, fields[i], ret);
        OneMore(h, |table|, fields, i);
        i := i + 1;
      }
      assert fields[..i] == fields;
    }

    /** The checks on a telegram that was cut out; tokens are those of the telegram. */
    method CheckTelegram(s: string) returns (verdict: Verdict)
      requires |s| < NPOS
      ensures verdict == Check(own, comm, s)
    {
      hide Tokens, ScanHex, Checksum;
      verdict := Bad;
      var tokens := Tokenizer(DELIMITERS, s);
      if |tokens| <= 5 { return; }
      TokenCount(DELIMITERS, s);
      var tmp := ScanHex(tokens[|tokens| - 1]);
      if tmp.None? { return; }
      var chksum := CalcChecksum(s + "\0", |s| - 6);
      if tmp.value != chksum { return; }
      tmp := ScanHex(tokens[0]);
      if tmp.None? { return; }
      if tmp.value != comm { return NotForUs; }
      tmp := ScanHex(tokens[1]);
      if tmp.None? { return; }
      if tmp.value != own { return NotForUs; }
      tmp := ScanHex(tokens[2]);
      if tmp.None? || tmp.value != |s| { return; }
      verdict := Data(Fields(tokens));
    }

    method ParseReceivedString(rcvd: string, h: Handlers) returns (ret: int)
      requires |rcvd| < NPOS
      modifies `notAnswered
      ensures ret == Parsed(own, comm, h, |table|, rcvd)
      ensures notAnswered == old(notAnswered) - AnsweredBy(own, comm, h, |table|, rcvd)
    {
      hide Refused, Answered, Check;
      ret := -1;
      var s := rcvd;
      var pos := LastOf(s, '{');
      if pos != 0 && pos != |s| { s := s[pos..]; }
      WholeFromStart(rcvd);
      pos := FirstOf(s, '}');
      if pos == |s| { return; }
      s := s[..pos + 1];
      assert Extract(rcvd) == Some(s);
      var verdict := CheckTelegram(s);
      if verdict.NotForUs? { return 0; }
      if verdict.Data? {
        ShortFields(own, comm, s);
        ret := HandleFields(h, verdict.fields);
      }
    }

    /** One callback. The result of evaluating an answer is that of its last telegram; commands
        without an answer are notified and forgotten. */
    method ExecuteCommand(code: Code, err: int, connected: bool, shutdown: bool, considered: seq<bool>,
                          rcvd: string, h: Handlers)
      returns (action: Action, sent: string, notified: set<nat>)
      requires Valid() && |considered| == |table| && |rcvd| < NPOS
      modifies `pending, `notAnswered
      ensures Valid()
      ensures var parsed := Parsed(own, comm, h, |table|, rcvd);
              var answered := AnsweredBy(own, comm, h, |table|, rcvd);
              && ToBook() == NextBook(code, old(ToBook()), table, considered, err, parsed, answered)
              && action == React(code, Input(err, connected, shutdown, parsed, pending != []))
              && notified == if code == EvaluateReceive && err >= 0 && parsed == 1 then old(notAnswered) - answered
                             else {}
      ensures sent == if code == QueryPoll then Assembled(table, old(pending) + Chosen(considered), own, comm)
                      else if code == SendQueries then Assembled(table, old(pending), own, comm)
                      else ""
    {
      sent, notified := "", {};
      match code {
        case Disconnected =>
          pending, notAnswered := [], {};
          action := if connected then Use(Disconnect, Plain, DisconnectedWait) else Schedule(DisconnectedWait);
        case DisconnectedWait =>
          action := Schedule(Init);
        case Init =>
          action := if shutdown then Stop else Use(Connect, Plain, Wait4Connection);
        case Wait4Connection =>
          action := Schedule(if err < 0 then Disconnected else QueryPoll);
        case QueryPoll =>
          CollectQueries(considered);
          sent := AssembleQueryString();
          action := Use(Send, Request, WaitSent);
        case SendQueries =>
          sent := AssembleQueryString();
          action := Use(Send, Request, WaitSent);
        case WaitSent =>
          action := if err < 0 then Use(Noop, Cease, Disconnected) else Use(Receive, Cease, EvaluateReceive);
        case EvaluateReceive =>
          if err < 0 { return Schedule(Disconnected), sent, notified; }
          var parseresult := ParseReceivedString(rcvd, h);
          if parseresult != 1 { return Schedule(Disconnected), sent, notified; }
          notified := notAnswered;
          notAnswered := {};
          action := Schedule(if pending != [] then SendQueries else QueryPoll);
      }
    }
  }

  lemma WholeFromStart(s: string)
    ensures s[0..] == s
  {
  }

  lemma {:induction false} ShortTokens(d: string, s: string)
    ensures forall i | 0 <= i < |Tokens(d, s)| :: |Tokens(d, s)[i]| <= |s|
    decreases |s|
  {
    if s != "" {
      ShortTokens(d, if s[0] in d then s[1..] else s[RunLength(d, s)..]);
    }
  }

  lemma ShortFields(own: nat, comm: nat, s: string)
    requires Check(own, comm, s).Data?
    ensures forall i | 0 <= i < |Check(own, comm, s).fields| :: |Check(own, comm, s).fields[i]| <= |s|
  {
    hide Tokens, ScanHex, Checksum;
    ShortTokens(DELIMITERS, s);
  }

  lemma PortLength()
    ensures |Printed(QUERY, 1) + ":"| == 3
  {
  }

  lemma OneMore(h: Handlers, n: nat, fields: seq<string>, i: nat)
    requires i < |fields|
    ensures Refused(h, n, fields[..i + 1]) <==>
              Refused(h, n, fields[..i]) || exists k: nat :: k < n && RejectedBy(h, n, fields[i], k)
    ensures forall k :: Answered(h, n, fields[..i + 1], k) <==>
              Answered(h, n, fields[..i], k) || AcceptedBy(h, n, fields[i], k)
  {
    hide AcceptedBy, RejectedBy;
    var a, b := fields[..i], fields[..i + 1];
    assert forall j | 0 <= j < i :: b[j] == a[j];
    assert b[i] == fields[i];
  }
}
