/** Telegrams of the Sputnik protocol: how both ends print, sum and check them. */
module SputnikTelegram {
  import opened Prelude
  import opened SputnikTokenizer

  const DELIMITERS := "{;|:}"

  /** The port for queries; it is printed in hexadecimal. */
  const QUERY: nat := 100

  const UINT_RANGE: nat := 0x1_0000_0000
  const ULONG_MAX: nat := 0xFFFF_FFFF_FFFF_FFFF

  // ---------------------------------------------------------------- %X and %x

  function HexDigit(n: nat): char
    requires n < 16
  {
    "0123456789ABCDEF"[n]
  }

  function Hex(n: nat): (s: string)
    ensures s != ""
  {
    if n < 16 then [HexDigit(n)] else Hex(n / 16) + [HexDigit(n % 16)]
  }

  function Padded(s: string, width: nat): (r: string)
    ensures |r| == if |s| < width then width else |s|
    decreases width - |s|
  {
    if |s| >= width then s else Padded("0" + s, width)
  }

  /** What snprintf makes of n with %0<width>X. */
  function Printed(n: nat, width: nat): string { Padded(Hex(n), width) }

  predicate IsHexDigit(c: char) { '0' <= c <= '9' || 'A' <= c <= 'F' || 'a' <= c <= 'f' }

  function DigitValue(c: char): (v: nat)
    requires IsHexDigit(c)
    ensures v < 16
  {
    if c <= '9' then c as nat - '0' as nat
    else if c <= 'F' then c as nat - 'A' as nat + 10
    else c as nat - 'a' as nat + 10
  }

  predicate AllHex(s: string) { forall i | 0 <= i < |s| :: IsHexDigit(s[i]) }

  function HexValue(s: string): nat
    requires AllHex(s)
  {
    if s == "" then 0 else 16 * HexValue(s[..|s| - 1]) + DigitValue(s[|s| - 1])
  }

  /** The number of hexadecimal digits s starts with. */
  function HexLength(s: string): (n: nat)
    ensures n <= |s| && AllHex(s[..n])
    ensures n < |s| ==> !IsHexDigit(s[n])
  {
    if s == "" || !IsHexDigit(s[0]) then 0
    else
      var n := 1 + HexLength(s[1..]);
      assert s[..n] == [s[0]] + s[1..][..n - 1];
      n
  }

  function SkipBlanks(s: string): string {
    if s != "" && (s[0] == ' ' || '\t' <= s[0] <= '\r') then SkipBlanks(s[1..]) else s
  }

  /** sscanf with %x: blanks, a sign, 0x, then digits; the value is cut to an unsigned int. */
  function ScanHex(s: string): Option<nat> {
    var t := SkipBlanks(s);
    var negative := t != "" && t[0] == '-';
    var u := if t != "" && (t[0] == '-' || t[0] == '+') then t[1..] else t;
    var prefixed := |u| >= 2 && u[0] == '0' && (u[1] == 'x' || u[1] == 'X');
    var v := if prefixed then u[2..] else u;
    var n := HexLength(v);
    if n == 0 && !prefixed then None
    else
      var value: int := HexValue(v[..n]);
      Some((if value > ULONG_MAX then ULONG_MAX else if negative then -value else value) % UINT_RANGE)
  }

  lemma {:induction false} HexIsRead(n: nat)
    ensures AllHex(Hex(n)) && HexValue(Hex(n)) == n
  {
    if n >= 16 {
      HexIsRead(n / 16);
      var s := Hex(n);
      assert s[..|s| - 1] == Hex(n / 16);
    } else {
      assert Hex(n)[..0] == "";
    }
  }

  lemma {:induction false} ZeroInFront(s: string)
    requires AllHex(s)
    ensures AllHex("0" + s) && HexValue("0" + s) == HexValue(s)
  {
    var z := "0" + s;
    if s == "" {
      assert z[..0] == "";
    } else {
      assert z[..|z| - 1] == "0" + s[..|s| - 1];
      ZeroInFront(s[..|s| - 1]);
    }
  }

  lemma {:induction false} PaddingIsRead(s: string, width: nat)
    requires AllHex(s)
    ensures AllHex(Padded(s, width)) && HexValue(Padded(s, width)) == HexValue(s)
    decreases width - |s|
  {
    if |s| < width {
      ZeroInFront(s);
      PaddingIsRead("0" + s, width);
    }
  }

  lemma {:induction false} AllHexLength(s: string)
    requires AllHex(s)
    ensures HexLength(s) == |s|
  {
    if s != "" { AllHexLength(s[1..]); }
  }

  lemma DigitsAreScanned(s: string)
    requires s != "" && AllHex(s) && HexValue(s) < UINT_RANGE
    ensures ScanHex(s) == Some(HexValue(s))
  {
    hide HexLength, HexValue;
    AllHexLength(s);
    assert IsHexDigit(s[0]);
    assert |s| > 1 ==> IsHexDigit(s[1]);
    assert s[..|s|] == s;
  }

  /** Reading back what was printed. */
  lemma PrintedIsScanned(n: nat, width: nat)
    requires n < UINT_RANGE
    ensures ScanHex(Printed(n, width)) == Some(n)
    ensures AllHex(Printed(n, width)) && Printed(n, width) != ""
  {
    hide ScanHex, Padded;
    HexIsRead(n);
    PaddingIsRead(Hex(n), width);
    DigitsAreScanned(Printed(n, width));
  }

  lemma {:induction false} HexWidth(n: nat, width: nat)
    requires width > 0
    ensures |Hex(n)| <= width <==> n < Power16(width)
  {
    if width > 1 && n >= 16 {
      HexWidth(n / 16, width - 1);
      assert n / 16 < Power16(width - 1) <==> n < 16 * Power16(width - 1);
    } else if n >= 16 {
      assert |Hex(n)| == |Hex(n / 16)| + 1;
    } else {
      PowerGrows(width);
    }
  }

  function Power16(k: nat): nat { if k == 0 then 1 else 16 * Power16(k - 1) }

  lemma {:induction false} PowerGrows(k: nat)
    requires k > 0
    ensures Power16(k) >= 16
  {
    if k > 1 { PowerGrows(k - 1); }
  }

  lemma WidthFits(n: nat)
    ensures |Printed(n, 2)| == 2 <==> n <= 0xFF
    ensures |Printed(n, 4)| == 4 <==> n <= 0xFFFF
    ensures |Printed(n, 2)| >= 2 && |Printed(n, 4)| >= 4
  {
    HexWidth(n, 2);
    HexWidth(n, 4);
    assert Power16(2) == 0x100;
    assert Power16(4) == 0x10000;
  }

  // ---------------------------------------------------------------- the checksum

  /** The value of a char, which is signed where this program runs. */
  function Signed(c: char): int { if c as int < 128 then c as int else c as int - 256 }

  function Sum(s: string): int { if s == "" then 0 else Sum(s[..|s| - 1]) + Signed(s[|s| - 1]) }

  /** The sum over len bytes after the first, as an unsigned int; str includes its zero byte. */
  function Checksum(str: string, len: nat): nat
    requires 1 <= len < |str|
  {
    Sum(str[1..len + 1]) % UINT_RANGE
  }

  method CalcChecksum(str: string, len: nat) returns (chksum: nat)
    requires 1 <= len < |str|
    ensures chksum == Checksum(str, len)
  {
    chksum := 0;
    var k := 1;
    var left := len;
    var more := true;
    while more
      invariant k + left == len + 1 && (more <==> left > 0) && 1 <= k
      invariant chksum == Sum(str[1..k]) % UINT_RANGE
      decreases left
    {
      chksum := (chksum + Signed(str[k])) % UINT_RANGE;
      assert str[1..k + 1][..k - 1] == str[1..k];
      k := k + 1;
      left := left - 1;
      more := left != 0;
    }
  }

  lemma {:induction false} SumOfParts(a: string, b: string)
    ensures Sum(a + b) == Sum(a) + Sum(b)
  {
    if b == "" {
      assert a + b == a;
    } else {
      assert (a + b)[..|a + b| - 1] == a + b[..|b| - 1];
      SumOfParts(a, b[..|b| - 1]);
    }
  }

  predicate Ascii(s: string) { forall i | 0 <= i < |s| :: s[i] as int < 128 }

  lemma {:induction false} SumIsSmall(s: string)
    requires Ascii(s)
    ensures 0 <= Sum(s) <= 127 * |s|
  {
    if s != "" {
      SumIsSmall(s[..|s| - 1]);
    }
  }

  // ---------------------------------------------------------------- printing a telegram

  /** "{from;to;len|64:" */
  function Header(from: nat, to: nat, len: nat): string {
    "{" + Printed(from, 2) + ";" + Printed(to, 2) + ";" + Printed(len, 2) + "|" + Printed(QUERY, 1) + ":"
  }

  /** Both ends announce the length a telegram has when all its numbers fit their fields. */
  function Announced(body: string): nat { |body| + 19 }

  /** Everything up to and including the bar before the checksum. */
  function Front(from: nat, to: nat, body: string): (s: string)
    ensures |s| >= 1
  {
    Header(from, to, Announced(body)) + body + "|"
  }

  function Seal(front: string, checksum: nat): string { front + Printed(checksum, 4) + "}" }

  function Telegram(from: nat, to: nat, body: string): string {
    var front := Front(from, to, body);
    Seal(front, Checksum(front + "\0", |front|))
  }

  // ---------------------------------------------------------------- checking a telegram

  /** The place of the last c in s, or |s|. */
  function LastOf(s: string, c: char): (p: nat)
    ensures p <= |s|
    ensures p < |s| ==> s[p] == c && forall k | p < k < |s| :: s[k] != c
    ensures p == |s| ==> c !in s
  {
    if s == "" then 0
    else if s[|s| - 1] == c then |s| - 1
    else
      var p := LastOf(s[..|s| - 1], c);
      if p == |s| - 1 then |s| else p
  }

  /** The place of the first c in s, or |s|. */
  function FirstOf(s: string, c: char): (p: nat)
    ensures p <= |s|
    ensures p < |s| ==> s[p] == c
    ensures forall k | 0 <= k < p :: s[k] != c
  {
    if s == "" || s[0] == c then 0 else 1 + FirstOf(s[1..], c)
  }

  /** The inverter cuts what it received to the part from the last '{' to the next '}'. */
  function Extract(rcvd: string): Option<string> {
    var open := LastOf(rcvd, '{');
    var s := if open < |rcvd| then rcvd[open..] else rcvd;
    var close := FirstOf(s, '}');
    if close == |s| then None else Some(s[..close + 1])
  }

  /** -1, 0, or the data of a telegram that is going to be handled. */
  datatype Verdict = Bad | NotForUs | Data(fields: seq<string>)

  function Fields(tokens: seq<string>): seq<string>
    requires |tokens| >= 5
  {
    tokens[4..|tokens| - 1]
  }

  /** The checks of the inverter, in their order. */
  function Check(own: nat, comm: nat, s: string): Verdict {
    var tokens := Tokens(DELIMITERS, s);
    if |tokens| <= 5 then Bad else
    TokenCount(DELIMITERS, s);
    var given := ScanHex(tokens[|tokens| - 1]);
    if given.None? || given.value != Checksum(s + "\0", |s| - 6) then Bad else
    var from := ScanHex(tokens[0]);
    if from.None? then Bad else
    if from.value != comm then NotForUs else
    var to := ScanHex(tokens[1]);
    if to.None? then Bad else
    if to.value != own then NotForUs else
    var len := ScanHex(tokens[2]);
    if len.None? || len.value != |s| then Bad else Data(Fields(tokens))
  }

  /** What the inverter decides about received bytes before it looks at the data. */
  function Judge(own: nat, comm: nat, rcvd: string): Verdict {
    var s := Extract(rcvd);
    if s.None? then Bad else Check(own, comm, s.value)
  }

  /** The checks of the simulator; on success the sender and the data. */
  function SimulatorCheck(adr: nat, s: string): Option<(nat, seq<string>)> {
    if s == "" || s[0] != '{' || s[|s| - 1] != '}' then None else
    var tokens := Tokens(DELIMITERS, s);
    if |tokens| <= 5 then None else
    TokenCount(DELIMITERS, s);
    var given := ScanHex(tokens[|tokens| - 1]);
    if given.None? || given.value != Checksum(s + "\0", |s| - 6) then None else
    var from := ScanHex(tokens[0]);
    if from.None? then None else
    var to := ScanHex(tokens[1]);
    if to.None? || to.value != adr then None else
    var len := ScanHex(tokens[2]);
    if len.None? || len.value != |s| || tokens[3] != "64" then None
    else Some((from.value, Fields(tokens)))
  }
}
