/** Which damaged telegrams the checksum detects. */
module SputnikDetection {
  import opened Prelude
  import opened SputnikTokenizer
  import opened SputnikTelegram
  import opened SputnikRoundTrip

  predicate Bytes(s: string) { forall i | 0 <= i < |s| :: s[i] as int < 256 }

  /** r ends with a delimiter, the checksum token w, and closing delimiters. */
  predicate Split(r: string, front: string, bar: char, w: string, end: string) {
    && r == front + [bar] + (w + end)
    && bar in DELIMITERS && w != "" && Free(DELIMITERS, w)
    && end != "" && end[0] in DELIMITERS && Tokens(DELIMITERS, end) == []
  }

  /** A telegram that the inverter takes for its data, already cut out of what was received. */
  predicate Accepted(own: nat, comm: nat, r: string) {
    Bytes(r) && Extract(r) == Some(r) && Check(own, comm, r).Data?
  }

  predicate OtherByte(b: char, c: char) { b as int < 256 && b != c && b != '{' && b != '}' }

  // ---------------------------------------------------------------- where the checksum stands

  lemma SplitTokens(r: string, front: string, bar: char, w: string, end: string)
    requires Split(r, front, bar, w, end)
    ensures Tokens(DELIMITERS, r) == Tokens(DELIMITERS, front) + [w]
  {
    TokensSplit(DELIMITERS, front, bar, w + end);
    assert w + end == w + [end[0]] + end[1..];
    TakeWord(DELIMITERS, w, end[0], end[1..]);
  }

  lemma {:induction false} NoTokensInside(d: string, s: string)
    requires forall i | 0 <= i < |s| :: s[i] in d
    ensures Tokens(d, s) == []
  {
    if s != "" { NoTokensInside(d, s[1..]); }
  }

  /** Where the last run stands, if there are two. */
  lemma LastRun(r: string, tokens: seq<string>, places: seq<nat>) returns (a: nat, b: nat)
    requires MaximalRuns(DELIMITERS, r, tokens, places) && |tokens| >= 2
    ensures 0 < a < b <= |r| && MaximalRun(DELIMITERS, r, a, b)
    ensures forall k | b <= k < |r| :: r[k] in DELIMITERS
  {
    var last := |tokens| - 1;
    a, b := places[last], places[last] + |tokens[last]|;
    assert MaximalRun(DELIMITERS, r, a, b);
    assert places[0] < places[last];
    forall i | 0 <= i < |tokens| ensures places[i] + |tokens[i]| <= b {
      RunsDoNotOverlap(r, tokens, places, i, last);
    }
  }

  /** Every telegram with two tokens or more that ends in a delimiter has this form. */
  lemma SplitExists(r: string) returns (front: string, bar: char, w: string, end: string)
    requires |Tokens(DELIMITERS, r)| >= 2 && r[|r| - 1] in DELIMITERS
    ensures Split(r, front, bar, w, end)
  {
    hide Tokens, Places, MaximalRuns;
    TokensAreMaximalRuns(DELIMITERS, r);
    var a, b := LastRun(r, Tokens(DELIMITERS, r), Places(DELIMITERS, r));
    front, bar, w, end := r[..a - 1], r[a - 1], r[a..b], r[b..];
    assert r == front + [bar] + (w + end);
    NoTokensInside(DELIMITERS, end);
    forall c <- w ensures c !in DELIMITERS {
      var i :| 0 <= i < |w| && w[i] == c;
      assert r[a + i] !in DELIMITERS;
    }
  }

  lemma RunsDoNotOverlap(r: string, tokens: seq<string>, places: seq<nat>, i: nat, last: nat)
    requires MaximalRuns(DELIMITERS, r, tokens, places) && i <= last < |tokens|
    ensures |places| == |tokens| && places[i] + |tokens[i]| <= places[last] + |tokens[last]|
  {
    var a, b := places[last], places[last] + |tokens[last]|;
    assert MaximalRun(DELIMITERS, r, a, b);
    assert MaximalRun(DELIMITERS, r, places[i], places[i] + |tokens[i]|);
    if i < last {
      assert places[i] < a;
      assert r[a - 1] in DELIMITERS;
    }
  }

  // ---------------------------------------------------------------- what a change does

  /** A changed byte inside a frame leaves the frame as it is. */
  lemma FrameStays(r: string, k: nat, b: char)
    requires Extract(r) == Some(r) && 1 <= k < |r| - 1 && b != '{' && b != '}'
    ensures Extract(r[k := b]) == Some(r[k := b])
    ensures r[k] != '{' && r[k] != '}' && r[|r| - 1] == '}'
  {
    hide Extract, LastOf, FirstOf;
    var c := r[k := b];
    FrameOpens(r);
    if LastOf(r, '{') == 0 {
      assert c[0] == '{';
      assert LastOf(c, '{') == 0;
    } else {
      assert '{' !in r;
      assert LastOf(c, '{') == |c|;
    }
    assert c[|c| - 1] == '}';
    assert FirstOf(c, '}') == |c| - 1;
    WholeFrame(c);
  }

  /** What is left from the last opening brace on. */
  function Inner(r: string): string {
    var open := LastOf(r, '{');
    if open < |r| then r[open..] else r
  }

  lemma InnerLength(r: string)
    ensures |Inner(r)| <= |r| && (|Inner(r)| == |r| ==> Inner(r) == r && (LastOf(r, '{') == 0 || LastOf(r, '{') == |r|))
  {
    hide LastOf;
  }

  lemma ExtractInner(r: string)
    ensures var close := FirstOf(Inner(r), '}');
            Extract(r) == if close == |Inner(r)| then None else Some(Inner(r)[..close + 1])
  {
    hide LastOf, FirstOf;
  }

  lemma CutLength(rest: string, x: string)
    requires var close := FirstOf(rest, '}'); close < |rest| && x == rest[..close + 1]
    ensures |x| == FirstOf(rest, '}') + 1 <= |rest|
  {
    hide FirstOf;
  }

  /** A frame has its only opening brace in front, or none, and its first closing one at the end. */
  lemma FrameOpens(r: string)
    requires Extract(r) == Some(r)
    ensures r != "" && (LastOf(r, '{') == 0 || LastOf(r, '{') == |r|) && FirstOf(r, '}') == |r| - 1
  {
    hide LastOf, FirstOf, Extract, Inner;
    ExtractInner(r);
    CutLength(Inner(r), r);
    InnerLength(r);
  }

  lemma WholeFrame(c: string)
    requires c != "" && (LastOf(c, '{') == 0 || LastOf(c, '{') == |c|) && FirstOf(c, '}') == |c| - 1
    ensures Extract(c) == Some(c)
  {
    hide LastOf, FirstOf;
    assert c[0..] == c && c[..|c|] == c;
  }

  lemma SumOfChange(s: string, k: nat, b: char)
    requires k < |s|
    ensures Sum(s[k := b]) == Sum(s) - Signed(s[k]) + Signed(b)
  {
    hide Sum;
    assert s == s[..k] + [s[k]] + s[k + 1..];
    assert s[k := b] == s[..k] + [b] + s[k + 1..];
    SumOfParts(s[..k], [s[k]]);
    SumOfParts(s[..k], [b]);
    SumOfParts(s[..k] + [s[k]], s[k + 1..]);
    SumOfParts(s[..k] + [b], s[k + 1..]);
    SumOfOne(s[k]);
    SumOfOne(b);
  }

  lemma SumOfOne(c: char)
    ensures Sum([c]) == Signed(c)
  {
    assert [c][..0] == "";
  }

  /** Another byte within the summed part gives another checksum. */
  lemma ChecksumChanges(r: string, k: nat, b: char)
    requires |r| >= 7 && 1 <= k <= |r| - 6 && Bytes(r) && OtherByte(b, r[k])
    ensures Checksum(r[k := b] + "\0", |r| - 6) != Checksum(r + "\0", |r| - 6)
  {
    hide Sum;
    var part := (r + "\0")[1..|r| - 5];
    assert (r[k := b] + "\0")[1..|r| - 5] == part[k - 1 := b];
    SumOfChange(part, k - 1, b);
  }

  /** A byte outside the summed part does not matter for the checksum. */
  lemma ChecksumStays(r: string, k: nat, b: char)
    requires |r| >= 7 && |r| - 6 < k < |r|
    ensures Checksum(r[k := b] + "\0", |r| - 6) == Checksum(r + "\0", |r| - 6)
  {
    assert (r[k := b] + "\0")[1..|r| - 5] == (r + "\0")[1..|r| - 5];
  }

  lemma ChangedSplit(r: string, front: string, bar: char, w: string, end: string, k: nat, b: char)
    requires Split(r, front, bar, w, end) && k < |front|
    ensures Split(r[k := b], front[k := b], bar, w, end)
  {
    hide Tokens;
    assert r[k := b] == front[k := b] + [bar] + (w + end);
  }

  lemma AcceptedLength(own: nat, comm: nat, r: string)
    requires Check(own, comm, r).Data?
    ensures |r| >= 11 && |Tokens(DELIMITERS, r)| >= 6
  {
    hide Tokens, ScanHex, Checksum;
    TokenCount(DELIMITERS, r);
  }

  /** A changed byte in the summed part before the checksum is always detected. */
  lemma ChangeIsDetected(own: nat, comm: nat, r: string, front: string, bar: char, w: string, end: string,
                         k: nat, b: char)
    requires Accepted(own, comm, r) && Split(r, front, bar, w, end)
    requires 1 <= k < |front| && k <= |r| - 6 && OtherByte(b, r[k])
    ensures Judge(own, comm, r[k := b]) == Bad
  {
    hide Tokens, ScanHex, Checksum, Extract;
    AcceptedLength(own, comm, r);
    FrameStays(r, k, b);
    ChangedSplit(r, front, bar, w, end, k, b);
    SplitTokens(r, front, bar, w, end);
    SplitTokens(r[k := b], front[k := b], bar, w, end);
    ChecksumChanges(r, k, b);
  }

  // ---------------------------------------------------------------- bytes that are not summed

  lemma {:induction false} TokensOfTwo(d: string, a: string, s: string)
    ensures |Tokens(d, a + s)| <= |Tokens(d, a)| + |Tokens(d, s)|
    decreases |a|
  {
    if a == "" {
      assert a + s == s;
    } else if a[0] in d {
      assert (a + s)[1..] == a[1..] + s;
      TokensOfTwo(d, a[1..], s);
    } else {
      var n := RunLength(d, a);
      if n < |a| {
        SameEnd(d, a + s, n);
        assert (a + s)[n..] == a[n..] + s;
        TokensOfTwo(d, a[n..], s);
      } else {
        var m := |a| + RunLength(d, s);
        SameEnd(d, a + s, m);
        assert (a + s)[m..] == s[RunLength(d, s)..];
        RestOfRun(d, s);
        assert a[n..] == "";
      }
    }
  }

  lemma RestOfRun(d: string, s: string)
    ensures |Tokens(d, s)| <= |Tokens(d, s[RunLength(d, s)..])| + 1
    ensures s == "" || s[0] in d ==> Tokens(d, s) == Tokens(d, s[RunLength(d, s)..])
    ensures s != "" && s[0] !in d ==> |Tokens(d, s)| == |Tokens(d, s[RunLength(d, s)..])| + 1
  {
    if s == "" || s[0] in d { assert s[RunLength(d, s)..] == s; }
  }

  /** Another letter in a word changes neither the number of tokens nor the earlier tokens. */
  lemma {:induction false} OtherLetter(d: string, a: string, x: char, y: char, b: string)
    requires x !in d && y !in d
    ensures |Tokens(d, a + [x] + b)| == |Tokens(d, a + [y] + b)| >= |Tokens(d, a)|
    ensures forall i | 0 <= i < |Tokens(d, a)| - 1 :: Tokens(d, a + [x] + b)[i] == Tokens(d, a + [y] + b)[i]
    decreases |a|
  {
    var s, t := a + [x] + b, a + [y] + b;
    if a == "" {
      LetterFirst(d, a, x, b);
      LetterFirst(d, a, y, b);
    } else if a[0] in d {
      assert s[1..] == a[1..] + [x] + b && t[1..] == a[1..] + [y] + b;
      OtherLetter(d, a[1..], x, y, b);
    } else {
      var n := RunLength(d, a);
      if n < |a| {
        SameEnd(d, s, n);
        SameEnd(d, t, n);
        assert s[n..] == a[n..] + [x] + b && t[n..] == a[n..] + [y] + b;
        OtherLetter(d, a[n..], x, y, b);
      } else {
        LetterFirst(d, a, x, b);
        LetterFirst(d, a, y, b);
        assert Tokens(d, a[n..]) == [];
      }
    }
  }

  lemma LetterFirst(d: string, a: string, x: char, b: string)
    requires x !in d && RunLength(d, a) == |a|
    ensures |Tokens(d, a + [x] + b)| == 1 + |Tokens(d, b[RunLength(d, b)..])|
  {
    var s := a + [x] + b;
    var m := |a| + 1 + RunLength(d, b);
    SameEnd(d, s, m);
    assert s[m..] == b[RunLength(d, b)..];
  }

  /** A byte that this change puts in its place. */
  function Harmless(c: char): char {
    if c == ';' then '|' else if c in DELIMITERS then ';' else if c == 'A' then 'B' else 'A'
  }

  lemma HarmlessTokens(r: string, front: string, bar: char, w: string, end: string, k: nat)
    requires Split(r, front, bar, w, end) && |r| - 6 < k < |front| && |Tokens(DELIMITERS, r)| >= 6
    ensures var t, u := Tokens(DELIMITERS, r), Tokens(DELIMITERS, r[k := Harmless(r[k])]);
            |t| == |u| && t[|t| - 1] == u[|u| - 1] && t[0] == u[0] && t[1] == u[1] && t[2] == u[2]
  {
    hide Tokens, Harmless;
    var b := Harmless(r[k]);
    var before, after := front[..k], front[k + 1..];
    assert front == before + [r[k]] + after && front[k := b] == before + [b] + after;
    ChangedSplit(r, front, bar, w, end, k, b);
    SplitTokens(r, front, bar, w, end);
    SplitTokens(r[k := b], front[k := b], bar, w, end);
    HarmlessClass(r[k]);
    if r[k] in DELIMITERS {
      TokensSplit(DELIMITERS, before, r[k], after);
      TokensSplit(DELIMITERS, before, b, after);
    } else {
      OtherLetter(DELIMITERS, before, r[k], b, after);
      assert front == before + ([r[k]] + after);
      TokensOfTwo(DELIMITERS, before, [r[k]] + after);
      TokenCount(DELIMITERS, [r[k]] + after);
    }
  }

  lemma HarmlessClass(c: char)
    ensures c in DELIMITERS <==> Harmless(c) in DELIMITERS
    ensures OtherByte(Harmless(c), c)
  {
  }

  /** A change right before a checksum of fewer digits than the printer writes goes unnoticed. */
  lemma ChangeIsMissed(own: nat, comm: nat, r: string, front: string, bar: char, w: string, end: string, k: nat)
    requires Accepted(own, comm, r) && Split(r, front, bar, w, end)
    requires |r| - 6 < k < |front|
    ensures Judge(own, comm, r[k := Harmless(r[k])]).Data?
  {
    hide Tokens, ScanHex, Checksum, Extract, Harmless;
    AcceptedLength(own, comm, r);
    var b := Harmless(r[k]);
    HarmlessClass(r[k]);
    FrameStays(r, k, b);
    HarmlessTokens(r, front, bar, w, end, k);
    ChecksumStays(r, k, b);
  }

  /** Error detection: every other byte at this place before the checksum's delimiter makes the
      inverter reject the telegram if and only if the place is summed, that is, if it is not one of
      the last five bytes. */
  lemma DetectedExactly(own: nat, comm: nat, r: string, front: string, bar: char, w: string, end: string, k: nat)
    requires Accepted(own, comm, r) && Split(r, front, bar, w, end) && 1 <= k < |front|
    ensures (forall b | OtherByte(b, r[k]) :: Judge(own, comm, r[k := b]) == Bad) <==> k <= |r| - 6
  {
    hide Judge, Accepted, Tokens;
    if k <= |r| - 6 {
      forall b | OtherByte(b, r[k]) ensures Judge(own, comm, r[k := b]) == Bad {
        ChangeIsDetected(own, comm, r, front, bar, w, end, k, b);
      }
    } else {
      ChangeIsMissed(own, comm, r, front, bar, w, end, k);
      assert |front| < |r| by { assert r == front + [bar] + (w + end); }
      HarmlessClass(r[k]);
    }
  }

  /** With the four digits both ends print, every place before the bar is summed. */
  lemma FourDigitsDetectAll(own: nat, comm: nat, r: string, front: string, bar: char, w: string, end: string,
                            k: nat, b: char)
    requires Accepted(own, comm, r) && Split(r, front, bar, w, end) && 1 <= k < |front|
    requires |w| >= 4 && OtherByte(b, r[k])
    ensures Judge(own, comm, r[k := b]) == Bad
  {
    hide Judge, Accepted, Tokens;
    DetectedExactly(own, comm, r, front, bar, w, end, k);
  }

  // ---------------------------------------------------------------- a telegram with an unsummed byte

  /** Four bytes of data with the value -128, and a checksum of two digits. */
  const SHORT_FRONT := "{1;1;13|64:\U{80}\U{80}\U{80}\U{80}"
  const SHORT_TELEGRAM := SHORT_FRONT + "|DC}"

  lemma SumOfFour(a: char, b: char, c: char, d: char)
    ensures Sum([a, b, c, d]) == Signed(a) + Signed(b) + Signed(c) + Signed(d)
  {
    hide Sum;
    assert [a, b, c, d] == [a] + [b] + ([c] + [d]);
    SumOfParts([a] + [b], [c] + [d]);
    SumOfParts([a], [b]);
    SumOfParts([c], [d]);
    SumOfOne(a);
    SumOfOne(b);
    SumOfOne(c);
    SumOfOne(d);
  }

  lemma ShortChecksum()
    ensures Checksum(SHORT_TELEGRAM + "\0", |SHORT_TELEGRAM| - 6) == 0xDC
  {
    hide Sum;
    var part := (SHORT_TELEGRAM + "\0")[1..|SHORT_TELEGRAM| - 5];
    assert part == "1;1;" + "13|6" + "4:\U{80}\U{80}" + "\U{80}";
    SumOfParts("1;1;" + "13|6" + "4:\U{80}\U{80}", "\U{80}");
    SumOfParts("1;1;" + "13|6", "4:\U{80}\U{80}");
    SumOfParts("1;1;", "13|6");
    SumOfFour('1', ';', '1', ';');
    SumOfFour('1', '3', '|', '6');
    SumOfFour('4', ':', '\U{80}', '\U{80}');
    SumOfOne('\U{80}');
  }

  lemma ShortTokens()
    ensures Tokens(DELIMITERS, SHORT_TELEGRAM) == ["1", "1", "13", "64", "\U{80}\U{80}\U{80}\U{80}", "DC"]
  {
    hide Tokens;
    var s6 := "DC" + "}" + "";
    var s5 := "\U{80}\U{80}\U{80}\U{80}" + "|" + s6;
    var s4 := "64" + ":" + s5;
    var s3 := "13" + "|" + s4;
    var s2 := "1" + ";" + s3;
    var s1 := "1" + ";" + s2;
    assert SHORT_TELEGRAM == "{" + s1;
    DropDelimiter(DELIMITERS, '{', s1);
    TakeWord(DELIMITERS, "1", ';', s2);
    TakeWord(DELIMITERS, "1", ';', s3);
    TakeWord(DELIMITERS, "13", '|', s4);
    TakeWord(DELIMITERS, "64", ':', s5);
    TakeWord(DELIMITERS, "\U{80}\U{80}\U{80}\U{80}", '|', s6);
    TakeWord(DELIMITERS, "DC", '}', "");
    NoTokens(DELIMITERS);
  }

  lemma TwoDigits(a: char, b: char)
    requires IsHexDigit(a) && IsHexDigit(b)
    ensures ScanHex([a]) == Some(DigitValue(a)) && ScanHex([a, b]) == Some(16 * DigitValue(a) + DigitValue(b))
  {
    hide ScanHex;
    assert [a][..0] == "" && [a, b][..1] == [a];
    DigitsAreScanned([a]);
    DigitsAreScanned([a, b]);
  }

  /** This telegram is accepted, but not every other byte before its checksum is detected. */
  lemma ShortChecksumMisses()
    ensures Accepted(1, 1, SHORT_TELEGRAM) && Split(SHORT_TELEGRAM, SHORT_FRONT, '|', "DC", "}")
    ensures 1 <= 14 < |SHORT_FRONT|
    ensures !forall b | OtherByte(b, SHORT_TELEGRAM[14]) :: Judge(1, 1, SHORT_TELEGRAM[14 := b]) == Bad
  {
    hide Tokens, ScanHex, Checksum, Extract, Judge;
    ShortTokens();
    ShortChecksum();
    TwoDigits('1', '3');
    TwoDigits('D', 'C');
    assert "" + SHORT_TELEGRAM + "" == SHORT_TELEGRAM;
    ExtractFinds("", SHORT_TELEGRAM, "");
    NoTokensInside(DELIMITERS, "}");
    DetectedExactly(1, 1, SHORT_TELEGRAM, SHORT_FRONT, '|', "DC", "}", 14);
  }
}
