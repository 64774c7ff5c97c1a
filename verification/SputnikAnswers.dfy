/** The form of telegrams byte by byte, and what becomes of the parts of an answer. */
module SputnikAnswers {
  import opened Prelude
  import opened SputnikTokenizer
  import opened SputnikTelegram
  import opened SputnikRoundTrip
  import opened SputnikPolling
  import opened SputnikInverter

  // ---------------------------------------------------------------- the form of a telegram

  function Digit(n: nat): char
    requires n < 16
  {
    if n < 10 then (48 + n) as char else (55 + n) as char
  }

  function TwoDigits(n: nat): string
    requires n < 256
  {
    [Digit(n / 16), Digit(n % 16)]
  }

  function FourDigits(n: nat): string
    requires n < 65536
  {
    TwoDigits(n / 256) + TwoDigits(n % 256)
  }

  /** The codes of the characters, added up. */
  function Total(s: string): nat { if s == "" then 0 else s[0] as nat + Total(s[1..]) }

  lemma SmallHex(n: nat)
    requires n < 16
    ensures Hex(n) == [Digit(n)]
  {
  }

  lemma PadOne(s: string, width: nat)
    ensures |s| >= width ==> Padded(s, width) == s
    ensures |s| < width ==> Padded(s, width) == Padded("0" + s, width)
  {
  }

  lemma HexAppend(n: nat)
    requires n >= 16
    ensures Hex(n) == Hex(n / 16) + [Digit(n % 16)]
  {
    SmallHex(n % 16);
  }

  lemma TwoHex(n: nat)
    requires n < 256
    ensures Printed(n, 2) == TwoDigits(n)
    ensures n >= 16 ==> Hex(n) == TwoDigits(n)
  {
    hide Padded, Hex, Digit;
    SmallHex(n / 16);
    PadOne(Hex(n), 2);
    if n < 16 {
      ZeroDigit();
      SmallHex(n);
      assert "0" + Hex(n) == TwoDigits(n);
      PadOne("0" + Hex(n), 2);
    } else {
      HexAppend(n);
    }
  }

  lemma Places(n: nat)
    ensures n / 16 / 16 == n / 256 && n / 16 % 16 == n % 256 / 16 && n % 16 == n % 256 % 16
  {
  }

  lemma LongHex(n: nat)
    requires 256 <= n < 65536
    ensures Hex(n) == Hex(n / 256) + TwoDigits(n % 256)
  {
    hide Hex, Digit;
    Places(n);
    HexAppend(n);
    HexAppend(n / 16);
  }

  lemma FourHex(n: nat)
    requires n < 65536
    ensures Printed(n, 4) == FourDigits(n)
  {
    hide Hex, Digit, Padded;
    PadOne(Hex(n), 4);
    ZeroDigit();
    if n < 16 {
      SmallHex(n);
      PadOne("0" + Hex(n), 4);
      PadOne("0" + ("0" + Hex(n)), 4);
      PadOne("0" + ("0" + ("0" + Hex(n))), 4);
    } else if n < 256 {
      TwoHex(n);
      PadOne("0" + Hex(n), 4);
      PadOne("0" + ("0" + Hex(n)), 4);
    } else {
      LongHex(n);
      if n < 4096 {
        SmallHex(n / 256);
        PadOne("0" + Hex(n), 4);
      } else {
        TwoHex(n / 256);
      }
    }
  }

  lemma ZeroDigit()
    ensures [Digit(0)] == "0"
  {
  }

  lemma {:induction false} TotalOfParts(a: string, c: char)
    ensures Total(a + [c]) == Total(a) + c as nat
  {
    if a == "" {
      assert [c][1..] == "";
      assert a + [c] == [c];
    } else {
      assert (a + [c])[1..] == a[1..] + [c];
      TotalOfParts(a[1..], c);
    }
  }

  lemma {:induction false} SumIsTotal(s: string)
    requires Ascii(s)
    ensures Sum(s) == Total(s)
  {
    if s != "" {
      SumIsTotal(s[..|s| - 1]);
      TotalOfParts(s[..|s| - 1], s[|s| - 1]);
      assert s == s[..|s| - 1] + [s[|s| - 1]];
    }
  }

  /** A telegram whose length fits two digits, byte by byte: the addresses, its own length and the port
      in hexadecimal, the data, and in four digits the sum of all bytes between the opening brace and
      the checksum. */
  lemma TelegramForm(from: nat, to: nat, body: string)
    requires from <= 0xFF && to <= 0xFF && |body| + 19 <= 0xFF && Body(body)
    ensures var t := Telegram(from, to, body);
            var numbers := TwoDigits(from) + ";" + TwoDigits(to) + ";" + TwoDigits(|body| + 19);
            var front := "{" + numbers + "|64:" + body + "|";
            && |t| == |body| + 19 && Total(front[1..]) < 65536
            && t == front + FourDigits(Total(front[1..])) + "}"
  {
    hide Printed, Sum, Total, TwoDigits, FourDigits;
    var front := Front(from, to, body);
    FormOfFront(from, to, body);
    AsciiFront(from, to, body);
    ChecksumFits(from, to, body);
    ZeroAdded(front);
    FourHex(Total(front[1..]));
    SealedLength(from, to, body, Total(front[1..]));
    WidthFits(|body| + 19);
    WidthFits(Total(front[1..]));
  }

  lemma FormOfFront(from: nat, to: nat, body: string)
    requires from <= 0xFF && to <= 0xFF && |body| + 19 <= 0xFF
    ensures var numbers := TwoDigits(from) + ";" + TwoDigits(to) + ";" + TwoDigits(|body| + 19);
            Front(from, to, body) == "{" + numbers + "|64:" + body + "|"
  {
    hide Printed, TwoDigits;
    TwoHex(from);
    TwoHex(to);
    TwoHex(|body| + 19);
    PortIs64();
    var h := "{" + TwoDigits(from) + ";" + TwoDigits(to) + ";" + TwoDigits(|body| + 19);
    assert h + "|" + "64" + ":" == h + "|64:";
    assert h == "{" + (TwoDigits(from) + ";" + TwoDigits(to) + ";" + TwoDigits(|body| + 19));
  }

  lemma ZeroAdded(front: string)
    requires 2 <= |front| <= 255 && Ascii(front) && Checksum(front + "\0", |front|) < 0xDEAD
    ensures Checksum(front + "\0", |front|) == Total(front[1..]) < 65536
  {
    hide Sum, Total;
    var all := front + "\0";
    assert all[1..|front| + 1] == front[1..] + "\0";
    SumOfParts(front[1..], "\0");
    ZeroByte();
    SumIsTotal(front[1..]);
    SumIsSmall(front[1..]);
  }

  /** A telegram with data whose length fits: between the right addresses its data is handled, between
      any others it is left alone. */
  lemma AddressesDecide(own: nat, comm: nat, from: nat, to: nat, body: string)
    requires from <= 0xFF && to <= 0xFF && |body| + 19 <= 0xFF && Body(body) && Tokens(";", body) != []
    ensures Check(own, comm, Telegram(from, to, body))
         == if from == comm && to == own then Data(Tokens(";", body)) else NotForUs
  {
    hide Tokens, Telegram, Checksum, ScanHex, Body;
    SealedIsRead(from, to, body);
  }

  /** The simulator takes it if it is sent to its address. */
  lemma SimulatorIsAddressed(adr: nat, from: nat, to: nat, body: string)
    requires from <= 0xFF && to <= 0xFF && |body| + 19 <= 0xFF && Body(body) && Tokens(";", body) != []
    ensures SimulatorCheck(adr, Telegram(from, to, body))
         == if to == adr then Some((from, Tokens(";", body))) else None
  {
    hide Tokens, Front, Seal, Checksum, ScanHex, Body;
    var front := Front(from, to, body);
    SealedIsRead(from, to, body);
    SealedEnds(from, to, body, Checksum(front + "\0", |front|));
  }

  /** The numbers of a telegram, and its data. */
  lemma SealedIsRead(from: nat, to: nat, body: string)
    requires from <= 0xFF && to <= 0xFF && |body| + 19 <= 0xFF && Body(body)
    ensures var t := Telegram(from, to, body);
            var tokens := Tokens(DELIMITERS, t);
            var n := |Tokens(";", body)|;
            && |tokens| == n + 5 && |t| >= 19 && tokens[4..|tokens| - 1] == Tokens(";", body) && tokens[3] == "64"
            && ScanHex(tokens[0]) == Some(from) && ScanHex(tokens[1]) == Some(to) && ScanHex(tokens[2]) == Some(|t|)
            && ScanHex(tokens[|tokens| - 1]) == Some(Checksum(t + "\0", |t| - 6))
  {
    hide Tokens, Front, Printed, Checksum, ScanHex, Body;
    var front := Front(from, to, body);
    var chk := Checksum(front + "\0", |front|);
    ChecksumFits(from, to, body);
    SealedTokens(from, to, body, chk);
    PrintedIsScanned(from, 2);
    PrintedIsScanned(to, 2);
    PrintedIsScanned(|body| + 19, 2);
    PrintedIsScanned(chk, 4);
    SumsAgree(from, to, body, chk);
  }

  // ---------------------------------------------------------------- how numbers are read

  predicate Blank(s: string) { forall i | 0 <= i < |s| :: s[i] == ' ' || '\t' <= s[i] <= '\r' }

  lemma {:induction false} BlanksAreSkipped(blanks: string, s: string)
    requires Blank(blanks) && s != "" && !(s[0] == ' ' || '\t' <= s[0] <= '\r')
    ensures SkipBlanks(blanks + s) == s
  {
    if blanks == "" {
      assert blanks + s == s;
    } else {
      assert (blanks + s)[1..] == blanks[1..] + s;
      BlanksAreSkipped(blanks[1..], s);
    }
  }

  lemma {:induction false} DigitsBefore(digits: string, rest: string)
    requires AllHex(digits) && (rest == "" || !IsHexDigit(rest[0]))
    ensures HexLength(digits + rest) == |digits| && (digits + rest)[..|digits|] == digits
  {
    if digits == "" {
      assert digits + rest == rest;
    } else {
      assert (digits + rest)[1..] == digits[1..] + rest;
      DigitsBefore(digits[1..], rest);
    }
  }

  /** What the digits stand for, capitals or not. */
  lemma DigitsCount(k: nat)
    requires k < 16
    ensures DigitValue("0123456789ABCDEF"[k]) == k && DigitValue("0123456789abcdef"[k]) == k
  {
  }

  /** A sign, or nothing; 0x, or nothing. */
  predicate Sign(s: string) { s == "" || s == "+" || s == "-" }

  predicate Prefix(s: string) { s == "" || s == "0x" || s == "0X" }

  /** Numbers are read as C reads them with %x: blanks, a sign, 0x, hexadecimal digits, and anything behind
      them. Numbers beyond 32 bits are cut, beyond 64 bits they are the largest; a negative one counts
      down from 2 to the 32. */
  lemma NumbersAreRead(blanks: string, sign: string, prefix: string, digits: string, rest: string)
    requires Blank(blanks) && Sign(sign) && Prefix(prefix)
    requires digits != "" && AllHex(digits) && (rest == "" || !IsHexDigit(rest[0]))
    requires prefix == "" && digits == "0" && rest != "" ==> rest[0] != 'x' && rest[0] != 'X'
    ensures var v: int := HexValue(digits);
            ScanHex(blanks + (sign + (prefix + (digits + rest))))
            == Some((if v > 0xFFFF_FFFF_FFFF_FFFF then 0xFFFF_FFFF else if sign == "-" then -v else v) % 0x1_0000_0000)
  {
    hide HexLength, HexValue, SkipBlanks;
    var v := digits + rest;
    var u := prefix + v;
    var t := sign + u;
    assert digits[0] == v[0] && IsHexDigit(v[0]);
    assert t[0] == if sign != "" then sign[0] else if prefix != "" then '0' else v[0];
    BlanksAreSkipped(blanks, t);
    DigitsBefore(digits, rest);
    SignIsTaken(sign, u);
    PrefixIsTaken(prefix, digits, rest);
    SameNumber(blanks + t, sign, u, prefix, v);
  }

  lemma SignIsTaken(sign: string, u: string)
    requires Sign(sign) && u != "" && u[0] != '-' && u[0] != '+'
    ensures var t := sign + u;
            (t[0] == '-' <==> sign == "-") && (if t[0] == '-' || t[0] == '+' then t[1..] else t) == u
  {
    assert sign == "" ==> sign + u == u;
    assert sign != "" ==> (sign + u)[1..] == u;
  }

  lemma PrefixIsTaken(prefix: string, digits: string, rest: string)
    requires Prefix(prefix) && digits != "" && AllHex(digits)
    requires prefix == "" && digits == "0" && rest != "" ==> rest[0] != 'x' && rest[0] != 'X'
    ensures var u := prefix + (digits + rest);
            var prefixed := |u| >= 2 && u[0] == '0' && (u[1] == 'x' || u[1] == 'X');
            (prefixed <==> prefix != "") && (if prefixed then u[2..] else u) == digits + rest
  {
    var u := prefix + (digits + rest);
    if prefix == "" {
      assert u == digits + rest;
      assert IsHexDigit(digits[0]);
      if |digits| >= 2 { assert u[1] == digits[1] && IsHexDigit(digits[1]); }
    } else {
      assert u[2..] == digits + rest;
    }
  }

  lemma SameNumber(s: string, sign: string, u: string, prefix: string, v: string)
    requires SkipBlanks(s) == sign + u && sign + u != ""
    requires var t := sign + u;
             (t[0] == '-' <==> sign == "-") && (if t[0] == '-' || t[0] == '+' then t[1..] else t) == u
    requires var prefixed := |u| >= 2 && u[0] == '0' && (u[1] == 'x' || u[1] == 'X');
             (prefixed <==> prefix != "") && (if prefixed then u[2..] else u) == v
    requires HexLength(v) > 0
    ensures var value: int := HexValue(v[..HexLength(v)]);
            ScanHex(s) == Some((if value > ULONG_MAX then ULONG_MAX else if sign == "-" then -value else value)
                               % UINT_RANGE)
  {
    hide HexLength, HexValue, SkipBlanks;
  }

  // ---------------------------------------------------------------- the parts of an answer

  /** No separator of parts. */
  predicate Part(s: string) { s != "" && forall i | 0 <= i < |s| :: s[i] != '=' && s[i] != ',' }

  /** How an answer to a command is written. */
  function AnswerText(token: string, value: string, value2: Option<string>): string {
    token + "=" + value + if value2.Some? then "," + value2.value else ""
  }

  function Parts(token: string, value: string, value2: Option<string>): seq<string> {
    [token, value] + if value2.Some? then [value2.value] else []
  }

  lemma PartIsToken(s: string)
    requires Part(s)
    ensures Tokens(PARTS, s) == [s]
  {
    hide Tokens;
    OneToken(PARTS, s);
  }

  lemma AnswerIsSplit(token: string, value: string, value2: Option<string>)
    requires Part(token) && Part(value) && (value2.Some? ==> Part(value2.value))
    ensures Tokens(PARTS, AnswerText(token, value, value2)) == Parts(token, value, value2)
  {
    hide Tokens;
    PartIsToken(token);
    PartIsToken(value);
    var rest := value + if value2.Some? then "," + value2.value else "";
    assert AnswerText(token, value, value2) == token + ['='] + rest;
    TokensSplit(PARTS, token, '=', rest);
    if value2.Some? {
      PartIsToken(value2.value);
      assert rest == value + [','] + value2.value;
      TokensSplit(PARTS, value, ',', value2.value);
    } else {
      assert rest == value;
    }
  }

  /** Command k handles the token, and no command before it does. */
  predicate Foremost(h: Handlers, n: nat, token: string, k: nat) {
    k < n && h.handled(k, token) && forall j | 0 <= j < k :: !h.handled(j, token)
  }

  lemma {:induction false} HandlerIsForemost(h: Handlers, n: nat, i: nat, token: string)
    ensures forall k | i <= k :: Handler(h, n, i, token) == Some(k) <==>
                                 k < n && h.handled(k, token) && forall j | i <= j < k :: !h.handled(j, token)
    decreases n - i
  {
  }

  /** An answer goes to the first command that handles its token, and to no other; that command gets the
      token and its values, and decides alone whether the answer is accepted or refused. An answer that
      no command handles changes nothing. */
  lemma AnswersGoToTheirCommands(h: Handlers, n: nat, token: string, value: string, value2: Option<string>)
    requires Part(token) && Part(value) && (value2.Some? ==> Part(value2.value))
    ensures var field, parts := AnswerText(token, value, value2), Parts(token, value, value2);
            && (forall k: nat :: Answered(h, n, [field], k) <==> Foremost(h, n, token, k) && h.accepts(k, parts))
            && (Refused(h, n, [field]) <==> exists k: nat :: Foremost(h, n, token, k) && !h.accepts(k, parts))
  {
    hide Tokens, Handler;
    var field, parts := AnswerText(token, value, value2), Parts(token, value, value2);
    AnswerIsSplit(token, value, value2);
    HandlerIsForemost(h, n, 0, token);
    assert parts[0] == token;
    forall k: nat ensures Answered(h, n, [field], k) <==> Foremost(h, n, token, k) && h.accepts(k, parts) {
      assert AcceptedBy(h, n, field, k) <==> Foremost(h, n, token, k) && h.accepts(k, parts);
      if AcceptedBy(h, n, field, k) { assert AcceptedBy(h, n, [field][0], k); }
    }
    forall k: nat ensures RejectedBy(h, n, field, k) <==> Foremost(h, n, token, k) && !h.accepts(k, parts) {
    }
    if k: nat :| Foremost(h, n, token, k) && !h.accepts(k, parts) { assert RejectedBy(h, n, [field][0], k); }
  }

  /** Of several answers each is judged for itself: a command is answered if one of them is accepted by
      it, and the telegram is refused if one of them is. */
  lemma EachAnswerCounts(h: Handlers, n: nat, fields: seq<string>, field: string)
    ensures forall k :: Answered(h, n, fields + [field], k) <==> Answered(h, n, fields, k) || Answered(h, n, [field], k)
    ensures Refused(h, n, fields + [field]) <==> Refused(h, n, fields) || Refused(h, n, [field])
    ensures !Refused(h, n, []) && forall k :: !Answered(h, n, [], k)
  {
    hide AcceptedBy, RejectedBy;
    var all, one := fields + [field], [field];
    OneMore(h, n, all, |fields|);
    OneMore(h, n, one, 0);
    assert all[..|fields| + 1] == all && all[..|fields|] == fields && one[..1] == one && one[..0] == [];
  }

  /** What evaluating received bytes comes to, with a telegram that fits among them and no opening brace
      behind it. 0: it is between other addresses. -1: an answer in it is refused. 1: none is. The commands
      that are answered are those with an accepted answer in it. */
  lemma ResultsMean(own: nat, comm: nat, h: Handlers, n: nat, before: string, from: nat, to: nat, body: string,
                    after: string)
    requires from <= 0xFF && to <= 0xFF && |body| + 19 <= 0xFF && Body(body) && Tokens(";", body) != [] && '{' !in after
    ensures var rcvd := before + Telegram(from, to, body) + after;
            var result, answered := Parsed(own, comm, h, n, rcvd), AnsweredBy(own, comm, h, n, rcvd);
            if from == comm && to == own then
              && result == (if Refused(h, n, Tokens(";", body)) then -1 else 1)
              && forall k: nat :: k in answered <==> k < n && Answered(h, n, Tokens(";", body), k)
            else result == 0 && answered == {}
  {
    hide Tokens, Telegram, Body, Refused, Answered, Extract, Check;
    TelegramIsExtracted(from, to, body, before, after);
    AddressesDecide(own, comm, from, to, body);
  }

  /** Enough tokens, and the last one is the checksum. */
  predicate Sound(s: string) {
    var tokens := Tokens(DELIMITERS, s);
    |tokens| > 5 && |s| > 6 && ScanHex(tokens[|tokens| - 1]) == Some(Checksum(s + "\0", |s| - 6))
  }

  /** Whatever was received between braces. It is left alone if it is sound and certainly from or to
      somebody else; it yields its data if it is sound, between the right addresses and of the length it
      says; anything else is an error. */
  lemma ChecksMean(own: nat, comm: nat, s: string)
    ensures Check(own, comm, s).NotForUs? <==>
              && Sound(s)
              && var from, to := ScanHex(Tokens(DELIMITERS, s)[0]), ScanHex(Tokens(DELIMITERS, s)[1]);
              from.Some? && (from.value != comm || (to.Some? && to.value != own))
    ensures Check(own, comm, s).Data? <==>
              && Sound(s)
              && var tokens := Tokens(DELIMITERS, s);
              ScanHex(tokens[0]) == Some(comm) && ScanHex(tokens[1]) == Some(own) && ScanHex(tokens[2]) == Some(|s|)
    ensures Check(own, comm, s).Data? ==>
              var tokens := Tokens(DELIMITERS, s);
              |tokens| > 5 && Check(own, comm, s).fields == tokens[4..|tokens| - 1]
  {
    hide Tokens, Checksum, ScanHex;
    if |Tokens(DELIMITERS, s)| > 5 { TokenCount(DELIMITERS, s); }
  }

  /** The simulator takes nothing but telegrams: braces at both ends, three hexadecimal numbers, the
      second its address and the third the length of it all, the port of queries, data, and the right
      checksum. */
  lemma SimulatorAcceptsOnly(adr: nat, s: string)
    requires SimulatorCheck(adr, s).Some?
    ensures var tokens := Tokens(DELIMITERS, s);
            && |s| >= 11 && s[0] == '{' && s[|s| - 1] == '}' && |tokens| >= 6
            && ScanHex(tokens[0]) == Some(SimulatorCheck(adr, s).value.0)
            && ScanHex(tokens[1]) == Some(adr) && ScanHex(tokens[2]) == Some(|s|) && tokens[3] == "64"
            && SimulatorCheck(adr, s).value.1 == tokens[4..|tokens| - 1]
            && ScanHex(tokens[|tokens| - 1]) == Some(Checksum(s + "\0", |s| - 6))
  {
    hide Tokens, Checksum, ScanHex;
    TokenCount(DELIMITERS, s);
  }
}
