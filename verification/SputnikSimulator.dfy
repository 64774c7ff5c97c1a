/** The simulator of a Sputnik inverter: it checks a query and prints the answer. */
module SputnikSimulator {
  import opened Prelude
  import opened SputnikTokenizer
  import opened SputnikTelegram
  import opened SputnikRoundTrip
  import opened SputnikPolling

  /** One line of the simulated values; the values are given as they are printed, None for a null
      pointer. */
  datatype Entry = Entry(token: string, killed: bool, value: Option<string>, value2: Option<string>)

  /** The answer so far, with what this token adds to it. */
  function AnswerToken(entries: seq<Entry>, token: string, ret: string): string {
    if entries == [] then ret
    else
      var e := entries[0];
      if e.token != token then AnswerToken(entries[1..], token, ret)
      else if e.killed then ret
      else if e.value == Some("") then AnswerToken(entries[1..], token, ret)
      else
        var one := if e.value.Some? then Extended(ret, token + "=" + e.value.value) else ret;
        if e.value2.Some? then one + "," + e.value2.value else one
  }

  function AnswerTokens(entries: seq<Entry>, tokens: seq<string>, ret: string): string {
    if tokens == [] then ret else AnswerTokens(entries, tokens[1..], AnswerToken(entries, tokens[0], ret))
  }

  /** What the simulator sends back; the empty string stands for no answer. */
  function Answer(adr: nat, entries: seq<Entry>, inject: bool, s: string): string {
    var v := SimulatorCheck(adr, s);
    if v.None? then ""
    else
      var front := Front(adr, v.value.0, AnswerTokens(entries, v.value.1, ""));
      Seal(front, if inject then 0xDEAD else Checksum(front + "\0", |front|))
  }

  class Simulator {
    const adr: nat
    var entries: seq<Entry>
    var injectChecksumError: bool

    constructor (adr: nat, entries: seq<Entry>)
      ensures this.adr == adr && this.entries == entries && !injectChecksumError
    {
      this.adr, this.entries, injectChecksumError := adr, entries, false;
    }

    /** The tokens of s if all checks pass. */
    method CheckQuery(s: string) returns (ok: bool, sender: nat, tokens: seq<string>)
      requires |s| < NPOS
      ensures ok <==> SimulatorCheck(adr, s).Some?
      ensures ok ==> |tokens| >= 6 && SimulatorCheck(adr, s) == Some((sender, Fields(tokens)))
    {
      ok, sender, tokens := false, 0, [];
      if s == "" || s[0] != '{' || s[|s| - 1] != '}' { return; }
      tokens := Tokenizer(DELIMITERS, s);
      if |tokens| <= 5 { return; }
      TokenCount(DELIMITERS, s);
      var tmp := ScanHex(tokens[|tokens| - 1]);
      if tmp.None? { return; }
      var chksum := CalcChecksum(s + "\0", |s| - 6);
      if tmp.value != chksum { return; }
      var from := ScanHex(tokens[0]);
      if from.None? { return; }
      sender := from.value;
      tmp := ScanHex(tokens[1]);
      if tmp.None? || tmp.value != adr { return; }
      tmp := ScanHex(tokens[2]);
      if tmp.None? || tmp.value != |s| { return; }
      if tokens[3] != "64" { return; }
      ok := true;
    }

    /** The loop over the table for one token. */
    method AppendAnswer(token: string, ret: string) returns (r: string)
      ensures r == AnswerToken(entries, token, ret)
    {
      r := ret;
      var j := 0;
      assert entries[0..] == entries;
      while j < |entries|
        invariant 0 <= j <= |entries| && r == ret
        invariant AnswerToken(entries[j..], token, ret) == AnswerToken(entries, token, ret)
      {
        var e := entries[j];
        assert entries[j..][0] == e && entries[j..][1..] == entries[j + 1..];
        j := j + 1;
        if token == e.token {
          if e.killed { return; }
          if e.value.Some? {
            if e.value.value == "" { continue; }
            if r != "" { r := r + ";"; }
            r := r + (token + "=" + e.value.value);
          }
          if e.value2.Some? { r := r + "," + e.value2.value; }
          return;
        }
      }
    }

    /** The loop over the data tokens. */
    method AppendAnswers(tokens: seq<string>) returns (ret: string)
      requires |tokens| >= 5
      ensures ret == AnswerTokens(entries, Fields(tokens), "")
    {
      ret := "";
      ghost var fields := Fields(tokens);
      assert fields[0..] == fields;
      var i := 4;
      while i < |tokens| - 1
        invariant 4 <= i <= |tokens| - 1
        invariant AnswerTokens(entries, fields[i - 4..], ret) == AnswerTokens(entries, fields, "")
      {
        assert fields[i - 4..][0] == tokens[i] && fields[i - 4..][1..] == fields[i - 3..];
        ret := AppendAnswer(tokens[i], ret);
        i := i + 1;
      }
      assert fields[i - 4..] == [];
    }

    method ParseReceivedString(s: string) returns (ret: string)
      requires |s| < NPOS
      modifies `injectChecksumError
      ensures ret == Answer(adr, entries, old(injectChecksumError), s)
      ensures injectChecksumError == (old(injectChecksumError) && SimulatorCheck(adr, s).None?)
    {
      hide SimulatorCheck, Tokens, Printed, Checksum, AnswerTokens;
      var ok, sender, tokens := CheckQuery(s);
      if !ok { return ""; }
      var data := AppendAnswers(tokens);
      var front := "{" + Printed(adr, 2) + ";" + Printed(sender, 2) + ";" + Printed(|data| + 19, 2) + "|64:";
      FrontIsPrinted(adr, sender, data);
      ret := front + data + "|";
      var chksum := CalcChecksum(ret + "\0", |ret|);
      if injectChecksumError {
        chksum := 0xdead;
        injectChecksumError := false;
      }
      ret := Seal(ret, chksum);
    }
  }

  lemma FrontIsPrinted(from: nat, to: nat, body: string)
    ensures Front(from, to, body)
            == "{" + Printed(from, 2) + ";" + Printed(to, 2) + ";" + Printed(|body| + 19, 2) + "|64:" + body + "|"
  {
    hide Printed;
    PortIs64();
    var f, t, l := Printed(from, 2), Printed(to, 2), Printed(|body| + 19, 2);
    assert "{" + f + ";" + t + ";" + l + "|" + "64" + ":" == "{" + f + ";" + t + ";" + l + "|64:";
  }

  // ---------------------------------------------------------------- what is answered

  /** A line in the letters a telegram may carry; one with a second value has a first. */
  predicate Line(e: Entry) {
    && Plain(e.token) && e.token != ""
    && (e.value.Some? ==> Plain(e.value.value))
    && (e.value2.Some? ==> e.value.Some? && Plain(e.value2.value))
  }

  predicate Printable(entries: seq<Entry>) { forall i | 0 <= i < |entries| :: Line(entries[i]) }

  /** Data without separator. */
  predicate Plain(s: string) { forall i | 0 <= i < |s| :: s[i] as int < 128 && s[i] !in "{;|:}" }

  /** The line is for the token, and not passed over for want of a value. */
  predicate IsFor(e: Entry, token: string) { e.token == token && (e.killed || e.value != Some("")) }

  /** The answer to one token: of the first line for it, unless that is disabled or has no value. */
  function AnswerTo(entries: seq<Entry>, token: string): seq<string> {
    if entries == [] then []
    else
      var e := entries[0];
      if !IsFor(e, token) then AnswerTo(entries[1..], token)
      else if e.killed || e.value.None? then []
      else [token + "=" + e.value.value + if e.value2.Some? then "," + e.value2.value else ""]
  }

  function AnswersTo(entries: seq<Entry>, tokens: seq<string>): seq<string> {
    if tokens == [] then [] else AnswerTo(entries, tokens[0]) + AnswersTo(entries, tokens[1..])
  }

  lemma PlainIsWord(s: string)
    requires Plain(s) && s != ""
    ensures Words(s) && Tokens(";", s) == [s]
  {
    assert Body(s);
    OneToken(";", s);
  }

  lemma {:induction false} TokenIsAnswered(entries: seq<Entry>, token: string, ret: string)
    requires Printable(entries) && Body(ret)
    ensures var r := AnswerToken(entries, token, ret);
            Body(r) && Tokens(";", r) == Tokens(";", ret) + AnswerTo(entries, token)
  {
    hide Tokens, Extended;
    if entries != [] {
      var e := entries[0];
      if !IsFor(e, token) {
        TokenIsAnswered(entries[1..], token, ret);
      } else if !e.killed && e.value.Some? {
        var text := token + "=" + e.value.value + if e.value2.Some? then "," + e.value2.value else "";
        OneAnswer(e, token, ret);
        PlainIsWord(text);
        ExtendedTokens(ret, text);
      }
    }
  }

  lemma OneAnswer(e: Entry, token: string, ret: string)
    requires Line(e) && token == e.token && e.value.Some?
    ensures var text := token + "=" + e.value.value + if e.value2.Some? then "," + e.value2.value else "";
            var one := Extended(ret, token + "=" + e.value.value);
            && Plain(text) && text != ""
            && (if e.value2.Some? then one + "," + e.value2.value else one) == Extended(ret, text)
  {
  }

  lemma {:induction false} TokensAreAnswered(entries: seq<Entry>, tokens: seq<string>, ret: string)
    requires Printable(entries) && Body(ret)
    ensures var r := AnswerTokens(entries, tokens, ret);
            Body(r) && Tokens(";", r) == Tokens(";", ret) + AnswersTo(entries, tokens)
    decreases |tokens|
  {
    hide Tokens, Body, AnswerToken, AnswerTo, Printable;
    if tokens != [] {
      TokenIsAnswered(entries, tokens[0], ret);
      TokensAreAnswered(entries, tokens[1..], AnswerToken(entries, tokens[0], ret));
    }
  }

  /** Once around: an inverter asks, the simulator answers, and the inverter takes exactly the
      answers to the commands it sent, in their order, if and only if there is an answer and the
      answer is not too long for the length field. */
  lemma OnceAround(table: seq<Query>, pending: seq<nat>, own: nat, comm: nat, entries: seq<Entry>)
    requires Known(table, pending) && Askable(table) && own <= 0xFF && comm <= 0xFF
    requires pending != [] && FitsAlone(table[pending[0]]) && Printable(entries)
    ensures var taken := Pack(table, pending).taken;
            && Known(table, taken)
            && var answers := AnswersTo(entries, Asked(table, taken));
            && var body := AnswerTokens(entries, Asked(table, taken), "");
            && var t := Answer(comm, entries, false, Assembled(table, pending, own, comm));
            && (Announced(body) < UINT_RANGE ==>
                  && (Judge(own, comm, t).Data? <==> answers != [] && Announced(body) <= 0xFF)
                  && (Judge(own, comm, t).Data? ==> Judge(own, comm, t).fields == answers))
  {
    hide Tokens, Check, Extract, SimulatorCheck, Telegram, Pack, AnswersTo, AnswerTokens, Asked, Body;
    QueryReachesSimulator(table, pending, own, comm);
    var tokens := Asked(table, Pack(table, pending).taken);
    NoTokens(";");
    EmptyBody();
    TokensAreAnswered(entries, tokens, "");
    var body := AnswerTokens(entries, tokens, "");
    assert Tokens(";", body) == AnswersTo(entries, tokens);
    AnswerIsTelegram(comm, entries, Assembled(table, pending, own, comm), own, tokens);
    if Announced(body) < UINT_RANGE {
      AnswerIsAccepted(own, comm, body);
      TelegramIsExtracted(comm, own, body, "", "");
      var t := Telegram(comm, own, body);
      assert "" + t + "" == t;
    }
  }

  lemma EmptyBody()
    ensures Body("")
  {
  }

  lemma AnswerIsTelegram(adr: nat, entries: seq<Entry>, s: string, sender: nat, tokens: seq<string>)
    requires SimulatorCheck(adr, s) == Some((sender, tokens))
    ensures Answer(adr, entries, false, s) == Telegram(adr, sender, AnswerTokens(entries, tokens, ""))
  {
    hide SimulatorCheck, Front, Seal, Checksum;
  }

  /** An answer to anything the simulator takes, whatever its data, is not accepted by its sender if the
      checksum was spoiled on request. */
  lemma SpoiledAnswerIsRejected(adr: nat, own: nat, entries: seq<Entry>, s: string)
    requires Printable(entries) && adr <= 0xFF && own <= 0xFF && SimulatorCheck(adr, s).Some?
    requires SimulatorCheck(adr, s).value.0 == own
    requires Announced(AnswerTokens(entries, SimulatorCheck(adr, s).value.1, "")) < UINT_RANGE
    ensures !Judge(own, adr, Answer(adr, entries, true, s)).Data?
  {
    hide SimulatorCheck, Front, Check, Extract, Checksum, AnswerTokens, Tokens, Body;
    var tokens := SimulatorCheck(adr, s).value.1;
    EmptyBody();
    TokensAreAnswered(entries, tokens, "");
    InjectedErrorIsRejected(own, adr, AnswerTokens(entries, tokens, ""));
    SealedIsWhole(adr, own, AnswerTokens(entries, tokens, ""), 0xDEAD);
  }

  lemma SealedIsWhole(from: nat, to: nat, body: string, chk: nat)
    requires from <= 0xFF && to <= 0xFF && Announced(body) < UINT_RANGE && Body(body) && chk < UINT_RANGE
    ensures var t := Seal(Front(from, to, body), chk); Extract(t) == Some(t)
  {
    hide Extract, Printed, Body, Front, Seal;
    var t := Seal(Front(from, to, body), chk);
    SealedEnds(from, to, body, chk);
    Inside(from, to, body, chk);
    ExtractFinds("", t, "");
    assert "" + t + "" == t;
  }
}
