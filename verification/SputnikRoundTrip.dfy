/** What one end prints, the other end accepts and reads back. */
module SputnikRoundTrip {
  import opened Prelude
  import opened SputnikTokenizer
  import opened SputnikTelegram

  /** Data of a telegram: commands or answers separated by semicolons. */
  predicate Body(s: string) {
    forall i | 0 <= i < |s| :: s[i] as int < 128 && s[i] !in "{|:}"
  }

  // ---------------------------------------------------------------- tokens of a sealed telegram

  lemma DropDelimiter(d: string, x: char, s: string)
    requires x in d
    ensures Tokens(d, [x] + s) == Tokens(d, s)
  {
    assert "" + [x] + s == [x] + s;
    TokensSplit(d, "", x, s);
  }

  lemma TakeWord(d: string, w: string, x: char, s: string)
    requires x in d && w != "" && Free(d, w)
    ensures Tokens(d, w + [x] + s) == [w] + Tokens(d, s)
  {
    TokensSplit(d, w, x, s);
    OneToken(d, w);
  }

  lemma {:induction false} SameDelimiters(d: string, e: string, s: string)
    requires forall i | 0 <= i < |s| :: s[i] in d <==> s[i] in e
    ensures Tokens(d, s) == Tokens(e, s)
    decreases |s|
  {
    if s == "" {
    } else if s[0] in d {
      SameDelimiters(d, e, s[1..]);
    } else {
      SameRun(d, e, s);
      SameDelimiters(d, e, s[RunLength(d, s)..]);
    }
  }

  lemma {:induction false} SameRun(d: string, e: string, s: string)
    requires forall i | 0 <= i < |s| :: s[i] in d <==> s[i] in e
    ensures RunLength(d, s) == RunLength(e, s)
  {
    if s != "" && s[0] !in d { SameRun(d, e, s[1..]); }
  }

  lemma NumberIsWord(n: nat, width: nat)
    requires n < UINT_RANGE
    ensures Printed(n, width) != "" && Free(DELIMITERS, Printed(n, width)) && Ascii(Printed(n, width))
  {
    PrintedIsScanned(n, width);
    var s := Printed(n, width);
    forall c <- s ensures c !in DELIMITERS {
      var i :| 0 <= i < |s| && s[i] == c;
      assert IsHexDigit(s[i]);
    }
    forall i | 0 <= i < |s| ensures s[i] as int < 128 {
      assert IsHexDigit(s[i]);
    }
  }

  /** The rest of a sealed telegram after its header. */
  function Tail(body: string, checksum: nat): string { body + "|" + (Printed(checksum, 4) + "}") }

  lemma TailTokens(body: string, checksum: nat)
    requires Body(body) && checksum < UINT_RANGE
    ensures Tokens(DELIMITERS, Tail(body, checksum)) == Tokens(";", body) + [Printed(checksum, 4)]
  {
    hide Tokens;
    var w := Printed(checksum, 4);
    assert w + "}" == w + "}" + "";
    NumberIsWord(checksum, 4);
    TakeWord(DELIMITERS, w, '}', "");
    NoTokens(DELIMITERS);
    TokensSplit(DELIMITERS, body, '|', w + "}");
    SameDelimiters(DELIMITERS, ";", body);
  }

  lemma NoTokens(d: string)
    ensures Tokens(d, "") == []
  {
  }

  lemma PortIs64()
    ensures Printed(QUERY, 1) == "64"
  {
    assert Hex(100) == Hex(6) + [HexDigit(4)];
  }

  lemma HeaderTokens(from: nat, to: nat, len: nat, rest: string)
    requires from < UINT_RANGE && to < UINT_RANGE && len < UINT_RANGE
    ensures Tokens(DELIMITERS, Header(from, to, len) + rest)
            == [Printed(from, 2), Printed(to, 2), Printed(len, 2), "64"] + Tokens(DELIMITERS, rest)
  {
    hide Tokens, Printed;
    var f, t, l, p := Printed(from, 2), Printed(to, 2), Printed(len, 2), Printed(QUERY, 1);
    HeaderParts(from, to, len, rest, f, t, l, p);
    NumberIsWord(from, 2);
    NumberIsWord(to, 2);
    NumberIsWord(len, 2);
    NumberIsWord(QUERY, 1);
    PortIs64();
    var s4 := p + ":" + rest;
    var s3 := l + "|" + s4;
    var s2 := t + ";" + s3;
    var s1 := f + ";" + s2;
    DelimitersKnown();
    DropDelimiter(DELIMITERS, '{', s1);
    TakeWord(DELIMITERS, f, ';', s2);
    TakeWord(DELIMITERS, t, ';', s3);
    TakeWord(DELIMITERS, l, '|', s4);
    TakeWord(DELIMITERS, p, ':', rest);
  }

  lemma DelimitersKnown()
    ensures forall c :: c in DELIMITERS <==> c == '{' || c == ';' || c == '|' || c == ':' || c == '}'
  {
  }

  lemma HeaderParts(from: nat, to: nat, len: nat, rest: string, f: string, t: string, l: string, p: string)
    requires f == Printed(from, 2) && t == Printed(to, 2) && l == Printed(len, 2) && p == Printed(QUERY, 1)
    ensures Header(from, to, len) + rest == "{" + (f + ";" + (t + ";" + (l + "|" + (p + ":" + rest))))
    ensures |Header(from, to, len)| == 5 + |f| + |t| + |l| + |p|
  {
    hide Printed;
  }

  lemma SealedParts(from: nat, to: nat, body: string, checksum: nat)
    ensures Seal(Front(from, to, body), checksum) == Header(from, to, Announced(body)) + Tail(body, checksum)
  {
    hide Header, Printed;
  }

  /** The tokens of a telegram: two addresses, the length, the port, the data, the checksum. */
  lemma SealedTokens(from: nat, to: nat, body: string, checksum: nat)
    requires from < UINT_RANGE && to < UINT_RANGE && Announced(body) < UINT_RANGE && checksum < UINT_RANGE
    requires Body(body)
    ensures Tokens(DELIMITERS, Seal(Front(from, to, body), checksum))
            == [Printed(from, 2), Printed(to, 2), Printed(Announced(body), 2), "64"] + Tokens(";", body)
               + [Printed(checksum, 4)]
  {
    hide Tokens, Seal, Front, Header, Tail, Printed;
    SealedParts(from, to, body, checksum);
    HeaderTokens(from, to, Announced(body), Tail(body, checksum));
    TailTokens(body, checksum);
  }

  lemma SealedLength(from: nat, to: nat, body: string, checksum: nat)
    requires from <= 0xFF && to <= 0xFF
    ensures |Front(from, to, body)| == 12 + |Printed(Announced(body), 2)| + |body|
    ensures |Seal(Front(from, to, body), checksum)| == |Front(from, to, body)| + |Printed(checksum, 4)| + 1
  {
    hide Printed;
    WidthFits(from);
    WidthFits(to);
    PortIs64();
  }

  // ---------------------------------------------------------------- the checksum of a telegram

  lemma AsciiFront(from: nat, to: nat, body: string)
    requires from <= 0xFF && to <= 0xFF && Announced(body) < UINT_RANGE && Body(body)
    ensures Ascii(Front(from, to, body))
  {
    hide Printed;
    NumberIsWord(from, 2);
    NumberIsWord(to, 2);
    NumberIsWord(Announced(body), 2);
    NumberIsWord(QUERY, 1);
  }

  /** The zero byte the printer sums at the end adds nothing, and the receiver stops before the bar
      it does not print. */
  lemma SameChecksum(front: string, rest: string)
    requires |front| >= 2
    ensures Checksum(front + "\0", |front|) == Checksum(front + rest + "\0", |front| - 1)
  {
    hide Sum;
    var a := (front + "\0")[1..|front| + 1];
    assert a == front[1..] + "\0";
    assert (front + rest + "\0")[1..|front|] == front[1..];
    SumOfParts(front[1..], "\0");
    ZeroByte();
  }

  lemma ZeroByte()
    ensures Sum("\0") == 0
  {
    assert "\0"[..0] == "";
  }

  lemma ChecksumFits(from: nat, to: nat, body: string)
    requires from <= 0xFF && to <= 0xFF && Announced(body) <= 0xFF && Body(body)
    ensures var front := Front(from, to, body);
            2 <= |front| == |body| + 14 && Checksum(front + "\0", |front|) < 0xDEAD
  {
    hide Front, Sum;
    var front := Front(from, to, body);
    SealedLength(from, to, body, 0);
    WidthFits(Announced(body));
    AsciiFront(from, to, body);
    assert Ascii(front + "\0");
    SumIsSmall((front + "\0")[1..|front| + 1]);
  }

  /** The receiver's sum over a telegram whose numbers fit is the printer's sum over its front. */
  lemma SumsAgree(from: nat, to: nat, body: string, checksum: nat)
    requires from <= 0xFF && to <= 0xFF && Announced(body) <= 0xFF && Body(body) && checksum <= 0xFFFF
    ensures var front := Front(from, to, body);
            var t := Seal(front, checksum);
            |t| == Announced(body) && Checksum(t + "\0", |t| - 6) == Checksum(front + "\0", |front|)
  {
    hide Front, Printed, Checksum;
    var front := Front(from, to, body);
    SealedLength(from, to, body, checksum);
    WidthFits(Announced(body));
    WidthFits(checksum);
    var rest := Printed(checksum, 4) + "}";
    assert Seal(front, checksum) == front + rest;
    SameChecksum(front, rest);
  }

  // ---------------------------------------------------------------- both directions

  /** Printed for the right addresses, a telegram is accepted by the inverter exactly when it has
      data and its length fits two digits; the data is what the body says. */
  lemma AnswerIsAccepted(own: nat, comm: nat, body: string)
    requires own <= 0xFF && comm <= 0xFF && Announced(body) < UINT_RANGE && Body(body)
    ensures var v := Check(own, comm, Telegram(comm, own, body));
            && (v.Data? <==> Announced(body) <= 0xFF && Tokens(";", body) != [])
            && (v.Data? ==> v.fields == Tokens(";", body))
  {
    hide Tokens, Front, Printed, Checksum, ScanHex;
    var front := Front(comm, own, body);
    var chk := Checksum(front + "\0", |front|);
    ChecksumIsUnsigned(front + "\0", |front|);
    SealedTokens(comm, own, body, chk);
    PrintedIsScanned(comm, 2);
    PrintedIsScanned(own, 2);
    PrintedIsScanned(Announced(body), 2);
    PrintedIsScanned(chk, 4);
    SealedLength(comm, own, body, chk);
    WidthFits(Announced(body));
    WidthFits(chk);
    if Announced(body) <= 0xFF {
      ChecksumFits(comm, own, body);
      SumsAgree(comm, own, body, chk);
    }
  }

  lemma ChecksumIsUnsigned(str: string, len: nat)
    requires 1 <= len < |str|
    ensures Checksum(str, len) < UINT_RANGE
  {
  }

  /** The same for a query and the simulator: it reads the sender and exactly the commands sent. */
  lemma QueryIsAccepted(own: nat, comm: nat, body: string)
    requires own <= 0xFF && comm <= 0xFF && Announced(body) < UINT_RANGE && Body(body)
    ensures var v := SimulatorCheck(comm, Telegram(own, comm, body));
            && (v.Some? <==> Announced(body) <= 0xFF && Tokens(";", body) != [])
            && (v.Some? ==> v.value == (own, Tokens(";", body)))
  {
    hide Tokens, Front, Printed, Checksum, ScanHex;
    var front := Front(own, comm, body);
    var chk := Checksum(front + "\0", |front|);
    var t := Telegram(own, comm, body);
    ChecksumIsUnsigned(front + "\0", |front|);
    SealedTokens(own, comm, body, chk);
    PrintedIsScanned(own, 2);
    PrintedIsScanned(comm, 2);
    PrintedIsScanned(Announced(body), 2);
    PrintedIsScanned(chk, 4);
    SealedLength(own, comm, body, chk);
    WidthFits(Announced(body));
    WidthFits(chk);
    SealedEnds(own, comm, body, chk);
    if Announced(body) <= 0xFF {
      ChecksumFits(own, comm, body);
      SumsAgree(own, comm, body, chk);
    }
  }

  lemma SealedEnds(from: nat, to: nat, body: string, checksum: nat)
    ensures var t := Seal(Front(from, to, body), checksum);
            t != "" && t[0] == '{' && t[|t| - 1] == '}'
  {
  }

  /** The checksum the simulator prints on request to provoke an error is never accepted. */
  lemma InjectedErrorIsRejected(own: nat, comm: nat, body: string)
    requires own <= 0xFF && comm <= 0xFF && Announced(body) < UINT_RANGE && Body(body)
    ensures !Check(own, comm, Seal(Front(comm, own, body), 0xDEAD)).Data?
  {
    hide Tokens, Front, Printed, Checksum, ScanHex;
    SealedTokens(comm, own, body, 0xDEAD);
    PrintedIsScanned(Announced(body), 2);
    PrintedIsScanned(0xDEAD, 4);
    SealedLength(comm, own, body, 0xDEAD);
    WidthFits(Announced(body));
    WidthFits(0xDEAD);
    if Announced(body) <= 0xFF {
      ChecksumFits(comm, own, body);
      SumsAgree(comm, own, body, 0xDEAD);
    }
  }

  /** Whatever was received before a telegram, and whatever follows it without a '{', the inverter
      cuts out the telegram. */
  lemma ExtractFinds(before: string, s: string, after: string)
    requires |s| >= 2 && s[0] == '{' && s[|s| - 1] == '}'
    requires forall i | 0 < i < |s| - 1 :: s[i] != '{' && s[i] != '}'
    requires '{' !in after
    ensures Extract(before + s + after) == Some(s)
  {
    var rcvd := before + s + after;
    var open := |before|;
    assert rcvd[open] == '{';
    forall k | open < k < |rcvd| ensures rcvd[k] != '{' {
      if k >= open + |s| { assert rcvd[k] == after[k - open - |s|]; } else { assert rcvd[k] == s[k - open]; }
    }
    assert LastOf(rcvd, '{') == open;
    var cut := rcvd[open..];
    assert cut == s + after;
    assert cut[|s| - 1] == '}';
    assert FirstOf(cut, '}') == |s| - 1;
  }

  /** A printed telegram is cut out of what surrounds it. */
  lemma TelegramIsExtracted(from: nat, to: nat, body: string, before: string, after: string)
    requires from < UINT_RANGE && to < UINT_RANGE && Announced(body) < UINT_RANGE && Body(body) && '{' !in after
    ensures var t := Telegram(from, to, body); Extract(before + t + after) == Some(t)
  {
    hide Checksum, Extract, Printed;
    var t := Telegram(from, to, body);
    var front := Front(from, to, body);
    var chk := Checksum(front + "\0", |front|);
    ChecksumIsUnsigned(front + "\0", |front|);
    SealedEnds(from, to, body, chk);
    Inside(from, to, body, chk);
    ExtractFinds(before, t, after);
  }

  predicate NoBraces(s: string) { forall i | 0 <= i < |s| :: s[i] != '{' && s[i] != '}' }

  lemma WordHasNoBraces(n: nat, width: nat)
    requires n < UINT_RANGE
    ensures NoBraces(Printed(n, width))
  {
    hide Printed;
    NumberIsWord(n, width);
    var s := Printed(n, width);
    forall i | 0 <= i < |s| ensures s[i] != '{' && s[i] != '}' {
      assert s[i] in s;
    }
  }

  lemma Inside(from: nat, to: nat, body: string, checksum: nat)
    requires from < UINT_RANGE && to < UINT_RANGE && Announced(body) < UINT_RANGE && Body(body)
    requires checksum < UINT_RANGE
    ensures var t := Seal(Front(from, to, body), checksum);
            forall i | 0 < i < |t| - 1 :: t[i] != '{' && t[i] != '}'
  {
    hide Printed;
    WordHasNoBraces(from, 2);
    WordHasNoBraces(to, 2);
    WordHasNoBraces(Announced(body), 2);
    WordHasNoBraces(QUERY, 1);
    WordHasNoBraces(checksum, 4);
    var f, t, l, p := Printed(from, 2), Printed(to, 2), Printed(Announced(body), 2), Printed(QUERY, 1);
    var inner := f + ";" + t + ";" + l + "|" + p + ":" + body + "|" + Printed(checksum, 4);
    InnerHasNoBraces(f, t, l, p, body, Printed(checksum, 4));
    assert Seal(Front(from, to, body), checksum) == "{" + inner + "}";
  }

  lemma InnerHasNoBraces(f: string, t: string, l: string, p: string, body: string, c: string)
    requires NoBraces(f) && NoBraces(t) && NoBraces(l) && NoBraces(p) && Body(body) && NoBraces(c)
    ensures NoBraces(f + ";" + t + ";" + l + "|" + p + ":" + body + "|" + c)
  {
    assert NoBraces(body);
    assert NoBraces(f + ";" + t + ";" + l + "|");
    assert NoBraces(p + ":" + body + "|" + c);
    assert f + ";" + t + ";" + l + "|" + p + ":" + body + "|" + c
           == (f + ";" + t + ";" + l + "|") + (p + ":" + body + "|" + c);
  }
}
