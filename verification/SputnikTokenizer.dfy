/** The tokenizer of the Sputnik inverter. The simulator carries the same code. */
module SputnikTokenizer {
  /** What the 32-bit variables of the tokenizer make of std::string::npos. */
  const NPOS: nat := 0xFFFF_FFFF

  /** A zero-terminated, non-empty list of delimiters. */
  predicate DelimiterList(d: string) { d != "" && '\0' !in d }

  /** s[k] of a constant std::string: one past the end there is a zero byte. */
  function At(s: string, k: nat): char
    requires k <= |s|
  {
    if k < |s| then s[k] else '\0'
  }

  // ---------------------------------------------------------------- what a token is

  /** The length of the delimiter-free run at the start of s. */
  function RunLength(d: string, s: string): (n: nat)
    ensures n <= |s|
    ensures forall k | 0 <= k < n :: s[k] !in d
    ensures n < |s| ==> s[n] in d
  {
    if s == "" || s[0] in d then 0 else 1 + RunLength(d, s[1..])
  }

  function Tokens(d: string, s: string): seq<string>
    decreases |s|
  {
    if s == "" then []
    else if s[0] in d then Tokens(d, s[1..])
    else [s[..RunLength(d, s)]] + Tokens(d, s[RunLength(d, s)..])
  }

  /** s[a..b] is a non-empty run without delimiters that cannot be made longer. */
  predicate MaximalRun(d: string, s: string, a: nat, b: nat) {
    && a < b <= |s|
    && (forall k | a <= k < b :: s[k] !in d)
    && (a > 0 ==> s[a - 1] in d)
    && (b < |s| ==> s[b] in d)
  }

  /** The tokens are maximal runs, found at these places in this order, and none is missing. */
  predicate MaximalRuns(d: string, s: string, tokens: seq<string>, places: seq<nat>) {
    && |places| == |tokens|
    && (forall i | 0 <= i < |tokens| ::
          && MaximalRun(d, s, places[i], places[i] + |tokens[i]|)
          && s[places[i]..places[i] + |tokens[i]|] == tokens[i])
    && (forall i, j | 0 <= i < j < |tokens| :: places[i] < places[j])
    && (forall k | 0 <= k < |s| && s[k] !in d :: Covered(tokens, places, k))
  }

  predicate Covered(tokens: seq<string>, places: seq<nat>, k: nat)
    requires |places| == |tokens|
  {
    exists i | 0 <= i < |tokens| :: places[i] <= k < places[i] + |tokens[i]|
  }

  function Shifted(places: seq<nat>, n: nat): (r: seq<nat>)
    ensures |r| == |places| && forall i | 0 <= i < |r| :: r[i] == places[i] + n
  {
    seq(|places|, i requires 0 <= i < |places| => places[i] + n)
  }

  function Back(places: seq<nat>, n: nat): (r: seq<nat>)
    requires forall i | 0 <= i < |places| :: places[i] >= n
    ensures |r| == |places| && forall i | 0 <= i < |r| :: r[i] == places[i] - n
  {
    seq(|places|, i requires 0 <= i < |places| && places[i] >= n => (places[i] - n) as nat)
  }

  /** The places in s of the tokens Tokens finds. */
  function Places(d: string, s: string): (places: seq<nat>)
    decreases |s|
  {
    if s == "" then []
    else if s[0] in d then Shifted(Places(d, s[1..]), 1)
    else [0] + Shifted(Places(d, s[RunLength(d, s)..]), RunLength(d, s))
  }

  lemma {:induction false} TokensAreMaximalRuns(d: string, s: string)
    ensures MaximalRuns(d, s, Tokens(d, s), Places(d, s))
    decreases |s|
  {
    if s == "" {
    } else if s[0] in d {
      TokensAreMaximalRuns(d, s[1..]);
      ShiftRuns(d, s, Tokens(d, s[1..]), Places(d, s[1..]));
    } else {
      var n := RunLength(d, s);
      TokensAreMaximalRuns(d, s[n..]);
      AddRun(d, s, n, Tokens(d, s[n..]), Places(d, s[n..]));
    }
  }

  lemma RunMoves(d: string, s: string, n: nat, a: nat, b: nat)
    requires 0 < n <= |s| && MaximalRun(d, s[n..], a, b) && (a == 0 ==> s[n - 1] in d)
    ensures MaximalRun(d, s, a + n, b + n)
  {
    var t := s[n..];
    assert forall k | 0 <= k < |t| :: t[k] == s[k + n];
    forall k | a + n <= k < b + n ensures s[k] !in d {
      assert t[k - n] !in d;
    }
  }

  /** The runs of s[n..] as runs of s. */
  lemma MovedRuns(d: string, s: string, n: nat, tokens: seq<string>, places: seq<nat>, i: nat)
    requires 0 < n <= |s| && MaximalRuns(d, s[n..], tokens, places) && i < |tokens|
    requires s[n - 1] in d || (n < |s| ==> s[n] in d)
    ensures |places| == |tokens| && places[i] + n + |tokens[i]| <= |s|
    ensures MaximalRun(d, s, places[i] + n, places[i] + n + |tokens[i]|)
    ensures s[places[i] + n..places[i] + n + |tokens[i]|] == tokens[i]
  {
    var p := places[i];
    var t := s[n..];
    assert MaximalRun(d, t, p, p + |tokens[i]|);
    assert t[0] == s[n];
    RunMoves(d, s, n, p, p + |tokens[i]|);
    SliceOfTail(s, n, p, p + |tokens[i]|);
  }

  lemma SliceOfTail(s: string, n: nat, a: nat, b: nat)
    requires n <= |s| && a <= b <= |s[n..]|
    ensures s[a + n..b + n] == s[n..][a..b]
  {
  }

  lemma MovedCover(d: string, s: string, n: nat, tokens: seq<string>, places: seq<nat>, k: nat) returns (i: nat)
    requires n <= k < |s| && MaximalRuns(d, s[n..], tokens, places) && s[k] !in d
    ensures i < |tokens| && places[i] + n <= k < places[i] + n + |tokens[i]|
  {
    assert s[n..][k - n] == s[k];
    assert Covered(tokens, places, k - n);
    i :| 0 <= i < |tokens| && places[i] <= k - n < places[i] + |tokens[i]|;
  }

  lemma ShiftRuns(d: string, s: string, tokens: seq<string>, places: seq<nat>)
    requires s != "" && s[0] in d && MaximalRuns(d, s[1..], tokens, places)
    ensures MaximalRuns(d, s, tokens, Shifted(places, 1))
  {
    var at := Shifted(places, 1);
    forall i | 0 <= i < |tokens|
      ensures MaximalRun(d, s, at[i], at[i] + |tokens[i]|) && s[at[i]..at[i] + |tokens[i]|] == tokens[i]
    {
      MovedRuns(d, s, 1, tokens, places, i);
    }
    forall k | 0 <= k < |s| && s[k] !in d ensures Covered(tokens, at, k) {
      var i := MovedCover(d, s, 1, tokens, places, k);
      assert at[i] <= k < at[i] + |tokens[i]|;
    }
  }

  lemma FirstIsMaximal(d: string, s: string)
    requires s != "" && s[0] !in d
    ensures MaximalRun(d, s, 0, RunLength(d, s))
  {
  }

  /** The same run, known to start n further in a longer list. */
  lemma AddedRun(d: string, s: string, n: nat, tokens: seq<string>, places: seq<nat>, i: nat)
    requires s != "" && s[0] !in d && n == RunLength(d, s) && MaximalRuns(d, s[n..], tokens, places)
    requires i <= |tokens|
    ensures var all := [s[..n]] + tokens;
            var at := [0] + Shifted(places, n);
            && MaximalRun(d, s, at[i], at[i] + |all[i]|) && at[i] + |all[i]| <= |s|
            && s[at[i]..at[i] + |all[i]|] == all[i]
  {
    hide Tokens, MaximalRuns, MaximalRun;
    if i == 0 {
      FirstIsMaximal(d, s);
      assert s[0..n] == s[..n];
    } else {
      MovedRuns(d, s, n, tokens, places, i - 1);
    }
  }

  lemma AddedCover(d: string, s: string, n: nat, tokens: seq<string>, places: seq<nat>, k: nat)
    requires s != "" && n == RunLength(d, s) && MaximalRuns(d, s[n..], tokens, places)
    requires k < |s| && s[k] !in d
    ensures Covered([s[..n]] + tokens, [0] + Shifted(places, n), k)
  {
    hide Tokens, MaximalRuns, MaximalRun;
    SamePlaces(d, s[n..], tokens, places);
    var all := [s[..n]] + tokens;
    var at := [0] + Shifted(places, n);
    if k < n {
      assert at[0] <= k < at[0] + |all[0]|;
    } else {
      var i := MovedCover(d, s, n, tokens, places, k);
      assert at[i + 1] <= k < at[i + 1] + |all[i + 1]|;
    }
  }

  lemma AddedOrder(d: string, s: string, n: nat, tokens: seq<string>, places: seq<nat>, i: nat, j: nat)
    requires 0 < n <= |s| && MaximalRuns(d, s[n..], tokens, places) && i < j <= |tokens|
    ensures |places| == |tokens| && ([0] + Shifted(places, n))[i] < ([0] + Shifted(places, n))[j]
  {
    hide Tokens, MaximalRun;
    assert i > 0 ==> places[i - 1] < places[j - 1];
  }

  lemma SamePlaces(d: string, s: string, tokens: seq<string>, places: seq<nat>)
    requires MaximalRuns(d, s, tokens, places)
    ensures |places| == |tokens|
  {
  }

  lemma AddRun(d: string, s: string, n: nat, tokens: seq<string>, places: seq<nat>)
    requires s != "" && s[0] !in d && n == RunLength(d, s) && MaximalRuns(d, s[n..], tokens, places)
    ensures n > 0 && MaximalRuns(d, s, [s[..n]] + tokens, [0] + Shifted(places, n))
  {
    hide Tokens, MaximalRun, Covered;
    var all := [s[..n]] + tokens;
    var at := [0] + Shifted(places, n);
    assert n > 0;
    assert MaximalRuns(d, s, all, at) by {
      SamePlaces(d, s[n..], tokens, places);
      forall i | 0 <= i < |all|
        ensures MaximalRun(d, s, at[i], at[i] + |all[i]|) && at[i] + |all[i]| <= |s|
        ensures s[at[i]..at[i] + |all[i]|] == all[i]
      {
        AddedRun(d, s, n, tokens, places, i);
      }
      forall i, j | 0 <= i < j < |all| ensures at[i] < at[j] {
        AddedOrder(d, s, n, tokens, places, i, j);
      }
      forall k | 0 <= k < |s| && s[k] !in d ensures Covered(all, at, k) {
        AddedCover(d, s, n, tokens, places, k);
      }
    }
  }

  /** Nothing else is the list of maximal runs. */
  lemma {:induction false} OnlyTokensAreMaximalRuns(d: string, s: string, tokens: seq<string>, places: seq<nat>)
    requires MaximalRuns(d, s, tokens, places)
    ensures tokens == Tokens(d, s)
    decreases |s|
  {
    hide MaximalRuns;
    if s == "" {
      NoRuns(d, s, tokens, places);
    } else if s[0] in d {
      LaterRuns(d, s, tokens, places);
      OnlyTokensAreMaximalRuns(d, s[1..], tokens, Back(places, 1));
    } else {
      var n := RunLength(d, s);
      FirstRun(d, s, tokens, places);
      RunsAfterFirst(d, s, tokens, places);
      OnlyTokensAreMaximalRuns(d, s[n..], tokens[1..], Back(places[1..], n));
    }
  }

  lemma RunFits(d: string, s: string, tokens: seq<string>, places: seq<nat>, i: nat)
    requires MaximalRuns(d, s, tokens, places) && i < |tokens|
    ensures s != ""
  {
    assert MaximalRun(d, s, places[i], places[i] + |tokens[i]|);
  }

  lemma NoRuns(d: string, s: string, tokens: seq<string>, places: seq<nat>)
    requires MaximalRuns(d, s, tokens, places) && s == ""
    ensures tokens == []
  {
    if tokens != [] { RunFits(d, s, tokens, places, 0); }
  }

  lemma LaterRuns(d: string, s: string, tokens: seq<string>, places: seq<nat>)
    requires MaximalRuns(d, s, tokens, places) && s != "" && s[0] in d
    ensures forall i | 0 <= i < |places| :: places[i] >= 1
    ensures MaximalRuns(d, s[1..], tokens, Back(places, 1))
  {
    forall i | 0 <= i < |places| ensures places[i] >= 1 {
      assert MaximalRun(d, s, places[i], places[i] + |tokens[i]|);
    }
    RunsOfTail(d, s, 1, tokens, places);
  }

  lemma RunsAfterFirst(d: string, s: string, tokens: seq<string>, places: seq<nat>)
    requires MaximalRuns(d, s, tokens, places) && s != "" && s[0] !in d
    requires tokens != [] && places[0] == 0 && tokens[0] == s[..RunLength(d, s)]
    ensures |places| == |tokens| && forall i | 0 <= i < |places[1..]| :: places[1..][i] >= RunLength(d, s)
    ensures MaximalRuns(d, s[RunLength(d, s)..], tokens[1..], Back(places[1..], RunLength(d, s)))
  {
    hide RunLength, Tokens;
    var n := RunLength(d, s);
    var rest := places[1..];
    assert MaximalRun(d, s, places[0], places[0] + |tokens[0]|);
    forall i | 0 <= i < |rest| ensures rest[i] >= n {
      assert MaximalRun(d, s, places[i + 1], places[i + 1] + |tokens[i + 1]|);
      assert places[i + 1] > 0;
    }
    forall k | n <= k < |s| && s[k] !in d ensures Covered(tokens[1..], rest, k) {
      assert Covered(tokens, places, k);
      var i :| 0 <= i < |tokens| && places[i] <= k < places[i] + |tokens[i]|;
      assert i > 0;
      assert rest[i - 1] <= k < rest[i - 1] + |tokens[1..][i - 1]|;
    }
    RunsOfTail(d, s, n, tokens[1..], rest);
  }

  lemma SameEnd(d: string, s: string, b: nat)
    requires b <= |s| && (forall k | 0 <= k < b :: s[k] !in d) && (b < |s| ==> s[b] in d)
    ensures b == RunLength(d, s)
  {
  }

  lemma {:induction false} PlacesGrow(d: string, s: string, tokens: seq<string>, places: seq<nat>, i: nat)
    requires MaximalRuns(d, s, tokens, places) && i < |tokens|
    ensures |places| == |tokens| && places[i] >= i
  {
    if i > 0 {
      PlacesGrow(d, s, tokens, places, i - 1);
      assert places[i - 1] < places[i];
    }
  }

  lemma FirstRun(d: string, s: string, tokens: seq<string>, places: seq<nat>)
    requires MaximalRuns(d, s, tokens, places) && s != "" && s[0] !in d
    ensures tokens != [] && places[0] == 0 && tokens[0] == s[..RunLength(d, s)]
  {
    assert Covered(tokens, places, 0);
    var i :| 0 <= i < |tokens| && places[i] <= 0 < places[i] + |tokens[i]|;
    PlacesGrow(d, s, tokens, places, i);
    var b := places[0] + |tokens[0]|;
    assert MaximalRun(d, s, places[0], b);
    SameEnd(d, s, b);
  }

  lemma RunsOfTail(d: string, s: string, n: nat, tokens: seq<string>, places: seq<nat>)
    requires 0 < n <= |s| && |places| == |tokens| && forall i | 0 <= i < |places| :: places[i] >= n
    requires forall i | 0 <= i < |tokens| ::
               && MaximalRun(d, s, places[i], places[i] + |tokens[i]|)
               && s[places[i]..places[i] + |tokens[i]|] == tokens[i]
    requires forall i, j | 0 <= i < j < |tokens| :: places[i] < places[j]
    requires forall k | n <= k < |s| && s[k] !in d :: Covered(tokens, places, k)
    ensures MaximalRuns(d, s[n..], tokens, Back(places, n))
  {
    var t := s[n..];
    var at := Back(places, n);
    assert forall k | 0 <= k < |t| :: t[k] == s[k + n];
    forall i | 0 <= i < |tokens|
      ensures MaximalRun(d, t, at[i], at[i] + |tokens[i]|) && t[at[i]..at[i] + |tokens[i]|] == tokens[i]
    {
      assert MaximalRun(d, s, places[i], places[i] + |tokens[i]|);
      assert s[places[i]..places[i] + |tokens[i]|] == t[at[i]..at[i] + |tokens[i]|];
    }
    forall k | 0 <= k < |t| && t[k] !in d ensures Covered(tokens, at, k) {
      assert Covered(tokens, places, k + n);
      var i :| 0 <= i < |tokens| && places[i] <= k + n < places[i] + |tokens[i]|;
      assert at[i] <= k < at[i] + |tokens[i]|;
    }
  }

  /** A list is the result of the tokenizer if and only if it is the list of maximal runs. */
  lemma TokensExactly(d: string, s: string, tokens: seq<string>)
    ensures tokens == Tokens(d, s) <==> exists places :: MaximalRuns(d, s, tokens, places)
  {
    TokensAreMaximalRuns(d, s);
    if places :| MaximalRuns(d, s, tokens, places) {
      OnlyTokensAreMaximalRuns(d, s, tokens, places);
    }
  }

  // ---------------------------------------------------------------- tokens of composed strings

  lemma {:induction false} RunOfSplit(d: string, a: string, x: char, b: string)
    requires x in d
    ensures RunLength(d, a + [x] + b) == RunLength(d, a)
  {
    var s := a + [x] + b;
    if a != "" {
      assert s[1..] == a[1..] + [x] + b;
      RunOfSplit(d, a[1..], x, b);
    }
  }

  /** A delimiter separates: the tokens are those before it, then those after it. */
  lemma {:induction false} TokensSplit(d: string, a: string, x: char, b: string)
    requires x in d
    ensures Tokens(d, a + [x] + b) == Tokens(d, a) + Tokens(d, b)
    decreases |a|
  {
    var s := a + [x] + b;
    if a == "" {
      assert s[1..] == b;
    } else if a[0] in d {
      assert s[1..] == a[1..] + [x] + b;
      TokensSplit(d, a[1..], x, b);
    } else {
      var n := RunLength(d, a);
      RunOfSplit(d, a, x, b);
      assert s[n..] == a[n..] + [x] + b && s[..n] == a[..n];
      TokensSplit(d, a[n..], x, b);
      assert Tokens(d, s) == [a[..n]] + (Tokens(d, a[n..]) + Tokens(d, b));
    }
  }

  predicate Free(d: string, w: string) { forall c <- w :: c !in d }

  lemma {:induction false} OneToken(d: string, w: string)
    requires w != "" && Free(d, w)
    ensures Tokens(d, w) == [w]
  {
    SameEnd(d, w, |w|);
    assert w[..|w|] == w && w[|w|..] == "";
  }

  /** Tokens are not empty and delimiters stand between them. */
  lemma {:induction false} TokenCount(d: string, s: string)
    ensures 2 * |Tokens(d, s)| <= |s| + 1
    ensures s != "" && s[0] in d ==> 2 * |Tokens(d, s)| <= |s|
    decreases |s|
  {
    if s == "" {
    } else if s[0] in d {
      TokenCount(d, s[1..]);
    } else {
      var n := RunLength(d, s);
      TokenCount(d, s[n..]);
      assert n > 0;
    }
  }

  // ---------------------------------------------------------------- the loops of the tokenizer

  /** The first place at or after from that holds c, as a 32-bit number. */
  method FindFirstOf(s: string, c: char, from: nat) returns (p: nat)
    requires |s| < NPOS && from <= |s|
    ensures from <= p
    ensures p < |s| ==> s[p] == c
    ensures p >= |s| ==> p == NPOS
    ensures forall k | from <= k < |s| && k < p :: s[k] != c
  {
    p := from;
    while p < |s|
      invariant from <= p <= |s|
      invariant forall k | from <= k < p :: s[k] != c
    {
      if s[p] == c { return; }
      p := p + 1;
    }
    p := NPOS;
  }

  /** Skips delimiters. After a hit the search goes on with the second delimiter, so the result
      may stand on the first one again. */
  method Skip(d: string, s: string, from: nat) returns (p: nat)
    requires DelimiterList(d) && from <= |s|
    ensures from <= p <= |s|
    ensures forall k | from <= k < p :: s[k] in d
    ensures p < |s| && s[p] in d ==> p > from && s[p] == d[0]
  {
    p := from;
    var i := 0;
    var more := true;
    while more
      invariant from <= p <= |s| && i <= |d| && (more ==> i < |d|) && (!more ==> i == |d|)
      invariant forall k | from <= k < p :: s[k] in d
      invariant forall j | 0 <= j < i :: At(s, p) == d[j] ==> j == 0 && p > from
      decreases |s| - p, |d| - i, more
    {
      if At(s, p) == d[i] {
        p := p + 1;
        i := 0;
      }
      i := i + 1;
      more := i < |d|;
    }
  }

  /** The first delimiter at or after from. */
  method FindDelimiter(d: string, s: string, from: nat) returns (pos: nat)
    requires DelimiterList(d) && |s| < NPOS && from <= |s|
    ensures from <= pos
    ensures pos < |s| ==> s[pos] in d
    ensures pos >= |s| ==> pos == NPOS
    ensures forall k | from <= k < |s| && k < pos :: s[k] !in d
  {
    pos := NPOS;
    var i := 0;
    var more := true;
    while more
      invariant 0 <= i <= |d| && (more ==> i < |d|) && (!more ==> i == |d|)
      invariant from <= pos && (pos < |s| ==> s[pos] in d) && (pos >= |s| ==> pos == NPOS)
      invariant forall k, j | from <= k < |s| && k < pos && 0 <= j < i :: s[k] != d[j]
      decreases |d| - i, more
    {
      var tmp := FindFirstOf(s, d[i], from);
      if tmp < pos { pos := tmp; }
      i := i + 1;
      more := i < |d|;
    }
  }

  lemma {:induction false} SkipKeepsTokens(d: string, s: string, a: nat, b: nat)
    requires a <= b <= |s| && forall k | a <= k < b :: s[k] in d
    ensures Tokens(d, s[a..]) == Tokens(d, s[b..])
    decreases b - a
  {
    if a < b {
      assert s[a..][0] in d && s[a..][1..] == s[a + 1..];
      SkipKeepsTokens(d, s, a + 1, b);
    }
  }

  lemma {:induction false} TakeRun(d: string, s: string, a: nat, b: nat)
    requires a < b <= |s| && (forall k | a <= k < b :: s[k] !in d) && (b < |s| ==> s[b] in d)
    ensures Tokens(d, s[a..]) == [s[a..b]] + Tokens(d, s[b..])
  {
    var t := s[a..];
    var n := b - a;
    assert forall k | 0 <= k < |t| :: t[k] == s[a + k];
    SameEnd(d, t, n);
    assert t[..n] == s[a..b] && t[n..] == s[b..];
  }

  lemma NothingLeft(d: string, s: string)
    ensures Tokens(d, s[|s|..]) == []
  {
  }

  /** The loop that looks for the second delimiter before the main loop cannot lower pos and is
      left out. */
  method Tokenizer(d: string, s: string) returns (tokens: seq<string>)
    requires DelimiterList(d) && |s| < NPOS
    ensures tokens == Tokens(d, s)
  {
    hide Tokens;
    NothingLeft(d, s);
    tokens := [];
    var lastPos := Skip(d, s, 0);
    SkipKeepsTokens(d, s, 0, lastPos);
    assert s[0..] == s;
    var pos := lastPos;
    while |s| > pos && |s| > lastPos
      invariant lastPos <= |s| && lastPos <= pos
      invariant tokens + Tokens(d, s[lastPos..]) == Tokens(d, s)
      invariant forall k | lastPos <= k < |s| && k < pos :: s[k] !in d
      invariant pos < |s| && s[pos] !in d ==> pos == lastPos
      invariant pos >= |s| ==> pos == NPOS || pos == lastPos
      decreases 2 * (|s| - lastPos) + if pos < |s| && s[pos] !in d then 1 else 0
    {
      if pos != lastPos {
        tokens := tokens + [s[lastPos..pos]];
        TakeRun(d, s, lastPos, pos);
      }
      lastPos := pos;
      lastPos := Skip(d, s, lastPos);
      SkipKeepsTokens(d, s, pos, lastPos);
      pos := FindDelimiter(d, s, lastPos);
    }
    if lastPos != |s| {
      TakeRun(d, s, lastPos, |s|);
      assert s[lastPos..|s|] == s[lastPos..];
      tokens := tokens + [s[lastPos..]];
    }
  }
}
