/** What the tag scanner looks at: equal stretches of two templates, each followed by a '<' or by the
    end, hold the same tags, wherever they stand and on whatever line. */
module TemplateLocal {
  import opened Prelude
  import opened TemplateScanner

  predicate Wall(s: CString, p: nat) { p < |s| ==> s[p] == '<' }

  /** s[p..p + n] and t[q..q + n] are equal, and behind both there is a '<' or nothing. */
  predicate Window(s: CString, p: nat, t: CString, q: nat, n: nat) {
    && p + n <= |s| && q + n <= |t|
    && s[p..p + n] == t[q..q + n]
    && Wall(s, p + n) && Wall(t, q + n)
  }

  lemma CharSame(s: CString, p: nat, t: CString, q: nat, n: nat, i: nat)
    requires Window(s, p, t, q, n) && i < n
    ensures s[p + i] == t[q + i]
  {
    assert s[p..p + n][i] == t[q..q + n][i];
  }

  lemma WindowFits(s: CString, p: nat, t: CString, q: nat, n: nat)
    requires Window(s, p, t, q, n)
    ensures p + n <= |s| && q + n <= |t|
  {
  }

  predicate IsQuote(c: char) { c == '"' || c == '\'' }

  /** An equals sign at or after p, then blanks only, then position m. */
  predicate Opens(s: CString, p: nat, m: nat)
    requires m <= |s|
  {
    exists b | p <= b < m :: s[b] == '=' && forall k | b < k < m :: IsBlank(s[k])
  }

  /** A quoted value that starts at m ends, or is given up, before e. */
  predicate Ends(s: CString, m: nat, e: nat)
    requires m < e <= |s|
  {
    exists k | m < k < e :: s[k] == s[m] || s[k] == '\n'
  }

  /** No attribute value that is opened in s[p..e] runs beyond it. */
  predicate Closed(s: CString, p: nat, e: nat)
    requires e <= |s|
  {
    forall m | p <= m < e && IsQuote(s[m]) && Opens(s, p, m) :: Ends(s, m, e)
  }

  /** A quoted value that runs to e is given up there: a line end or the end comes before a quote. */
  ghost predicate Dead(s: CString, e: nat)
    requires e <= |s|
  {
    forall quote | IsQuote(quote) :: At(s, QuotedEnd(s, e, quote)) != quote
  }

  lemma DeadAtEnd(s: CString)
    ensures Dead(s, |s|)
  {
  }

  ghost predicate QuotesAgree(s: CString, p: nat, t: CString, q: nat, n: nat)
    requires p + n <= |s| && q + n <= |t|
  {
    (Dead(s, p + n) && Dead(t, q + n)) || Closed(s, p, p + n)
  }

  // ---------------------------------------------------------------- the parts of a tag

  lemma {:induction false} SpacesSame(s: CString, p: nat, t: CString, q: nat, n: nat, i: nat, l: nat, m: nat)
    requires Window(s, p, t, q, n) && i <= n
    ensures ScanSpaces(s, p + i, l).p - p == ScanSpaces(t, q + i, m).p - q <= n
    decreases n - i
  {
    if i < n {
      CharSame(s, p, t, q, n, i);
      if IsBlank(s[p + i]) {
        SpacesSame(s, p, t, q, n, i + 1, if s[p + i] == '\n' then l + 1 else l, if s[p + i] == '\n' then m + 1 else m);
      }
    }
  }

  lemma {:induction false} SpacesAreBlank(s: CString, p: nat, l: nat)
    requires p <= |s|
    ensures forall k | p <= k < ScanSpaces(s, p, l).p :: IsBlank(s[k])
    decreases |s| - p
  {
    if IsBlank(At(s, p)) { SpacesAreBlank(s, p + 1, if At(s, p) == '\n' then l + 1 else l); }
  }

  /** A word without '<'. */
  predicate Solid(word: string) { word != "" && forall k | 0 <= k < |word| :: Lower(word[k]) != '<' }

  lemma MatchInside(s: CString, p: nat, t: CString, q: nat, n: nat, i: nat, word: string)
    requires Window(s, p, t, q, n) && i <= n && Solid(word) && Matches(s, p + i, word)
    ensures i + |word| <= n && Matches(t, q + i, word)
  {
    var over := if i + |word| > n then n - i else 0;
    assert Lower(s[p + i + over]) == Lower(word[over]);
    forall k | 0 <= k < |word| ensures Lower(t[q + i + k]) == Lower(word[k]) {
      assert Lower(s[p + i + k]) == Lower(word[k]);
      CharSame(s, p, t, q, n, i + k);
    }
  }

  lemma WindowTurned(s: CString, p: nat, t: CString, q: nat, n: nat)
    requires Window(s, p, t, q, n)
    ensures Window(t, q, s, p, n)
  {
  }

  lemma MatchesSame(s: CString, p: nat, t: CString, q: nat, n: nat, i: nat, word: string)
    requires Window(s, p, t, q, n) && i <= n && Solid(word)
    ensures Matches(s, p + i, word) <==> Matches(t, q + i, word)
    ensures Matches(s, p + i, word) ==> i + |word| <= n
  {
    hide Matches;
    WindowTurned(s, p, t, q, n);
    if Matches(s, p + i, word) { MatchInside(s, p, t, q, n, i, word); }
    if Matches(t, q + i, word) { MatchInside(t, q, s, p, n, i, word); }
  }

  lemma {:induction false} BareSame(s: CString, p: nat, t: CString, q: nat, n: nat, i: nat)
    requires Window(s, p, t, q, n) && i <= n
    ensures BareEnd(s, p + i) - p == BareEnd(t, q + i) - q <= n
    decreases n - i
  {
    if i < n {
      CharSame(s, p, t, q, n, i);
      BareSame(s, p, t, q, n, i + 1);
    }
  }

  lemma {:induction false} QuotedSame(s: CString, p: nat, t: CString, q: nat, n: nat, i: nat, quote: char)
    requires Window(s, p, t, q, n) && i <= n && IsQuote(quote)
    requires (Dead(s, p + n) && Dead(t, q + n)) || exists k | p + i <= k < p + n :: s[k] == quote || s[k] == '\n'
    ensures var e, f := QuotedEnd(s, p + i, quote), QuotedEnd(t, q + i, quote);
            && (At(s, e) == quote <==> At(t, f) == quote)
            && (At(s, e) == quote ==> e - p == f - q < n)
    decreases n - i
  {
    if i < n {
      CharSame(s, p, t, q, n, i);
      if s[p + i] != quote && s[p + i] != '\n' { QuotedSame(s, p, t, q, n, i + 1, quote); }
    }
  }

  lemma AtSame(s: CString, p: nat, t: CString, q: nat, n: nat, i: nat)
    requires Window(s, p, t, q, n) && i <= n
    ensures i < n ==> At(s, p + i) == At(t, q + i) == s[p + i]
    ensures i == n ==> At(s, p + i) in {'<', '\0'} && At(t, q + i) in {'<', '\0'}
  {
    if i < n { CharSame(s, p, t, q, n, i); }
  }

  lemma SubSlice(s: string, p: nat, n: nat, i: nat, j: nat)
    requires p + n <= |s| && i <= j <= n
    ensures s[p..p + n][i..j] == s[p + i..p + j]
  {
    var a, b := s[p..p + n][i..j], s[p + i..p + j];
    forall k | 0 <= k < j - i ensures a[k] == b[k] {
    }
  }

  lemma SliceSame(s: CString, p: nat, t: CString, q: nat, n: nat, i: nat, j: nat)
    requires Window(s, p, t, q, n) && i <= j <= n
    ensures s[p + i..p + j] == t[q + i..q + j]
  {
    SubSlice(s, p, n, i, j);
    SubSlice(t, q, n, i, j);
  }

  /** Both attempts fail, or both find the same value and end at the same place of the window. */
  predicate SameAttr(a: AttrScan, p: nat, b: AttrScan, q: nat, n: nat) {
    if a.Hit? then b.Hit? && a.value == b.value && a.end - p == b.end - q && a.end <= p + n else b.Miss?
  }

  /** The value at d. */
  function ValueAt(s: CString, d: Cursor): AttrScan
    requires d.p <= |s|
  {
    var quote := At(s, d.p);
    if quote == '"' || quote == '\'' then
      var e := QuotedEnd(s, d.p + 1, quote);
      if At(s, e) != quote then Miss(d.line) else Hit(s[d.p + 1..e], e + 1, d.line)
    else
      var e := BareEnd(s, d.p);
      if e == d.p then Miss(d.line) else Hit(s[d.p..e], e, d.line)
  }

  lemma AttrByValue(s: CString, word: string, p: nat, line: nat)
    requires p <= |s| && word != ""
    ensures ScanAttr(s, word, p, line) ==
              if !Matches(s, p, word) then Miss(line)
              else
                var c := ScanSpaces(s, p + |word|, line);
                if At(s, c.p) != '=' then Miss(c.line) else ValueAt(s, ScanSpaces(s, c.p + 1, c.line))
  {
    hide ScanSpaces, QuotedEnd, BareEnd, Matches;
  }

  /** The closing of a value opened behind the '=' at offset i. */
  lemma ValueCloses(s: CString, p: nat, n: nat, i: nat, j: nat)
    requires p + n <= |s| && Closed(s, p, p + n) && i < j < n && s[p + i] == '=' && IsQuote(s[p + j])
    requires forall k | p + i < k < p + j :: IsBlank(s[k])
    ensures exists k | p + (j + 1) <= k < p + n :: s[k] == s[p + j] || s[k] == '\n'
  {
    assert Opens(s, p, p + j);
    assert Ends(s, p + j, p + n);
  }

  lemma QuotedValueSame(s: CString, p: nat, t: CString, q: nat, n: nat, j: nat, l: nat, m: nat)
    requires Window(s, p, t, q, n) && j < n && IsQuote(s[p + j])
    requires || (Dead(s, p + n) && Dead(t, q + n))
             || exists k | p + (j + 1) <= k < p + n :: s[k] == s[p + j] || s[k] == '\n'
    ensures SameAttr(ValueAt(s, Cursor(p + j, l)), p, ValueAt(t, Cursor(q + j, m)), q, n)
  {
    hide QuotedEnd, BareEnd, Window;
    WindowFits(s, p, t, q, n);
    AtSame(s, p, t, q, n, j);
    QuotedSame(s, p, t, q, n, j + 1, s[p + j]);
    var e := QuotedEnd(s, p + j + 1, s[p + j]);
    if At(s, e) == s[p + j] { SliceSame(s, p, t, q, n, j + 1, e - p); }
  }

  lemma BareValueSame(s: CString, p: nat, t: CString, q: nat, n: nat, j: nat, l: nat, m: nat)
    requires Window(s, p, t, q, n) && j <= n && !IsQuote(At(s, p + j))
    ensures SameAttr(ValueAt(s, Cursor(p + j, l)), p, ValueAt(t, Cursor(q + j, m)), q, n)
  {
    hide QuotedEnd, BareEnd, Window;
    WindowFits(s, p, t, q, n);
    AtSame(s, p, t, q, n, j);
    BareSame(s, p, t, q, n, j);
    SliceSame(s, p, t, q, n, j, BareEnd(s, p + j) - p);
  }

  lemma ValueSame(s: CString, p: nat, t: CString, q: nat, n: nat, i: nat, l: nat, m: nat)
    requires Window(s, p, t, q, n) && QuotesAgree(s, p, t, q, n) && i < n && s[p + i] == '='
    ensures SameAttr(ValueAt(s, ScanSpaces(s, p + i + 1, l)), p, ValueAt(t, ScanSpaces(t, q + i + 1, m)), q, n)
  {
    hide ScanSpaces, ValueAt, Closed, Window, SameAttr;
    WindowFits(s, p, t, q, n);
    SpacesSame(s, p, t, q, n, i + 1, l, m);
    SpacesAreBlank(s, p + i + 1, l);
    var c, d := ScanSpaces(s, p + i + 1, l), ScanSpaces(t, q + i + 1, m);
    var j := c.p - p;
    AtSame(s, p, t, q, n, j);
    if j < n && IsQuote(s[p + j]) {
      if !(Dead(s, p + n) && Dead(t, q + n)) { ValueCloses(s, p, n, i, j); }
      QuotedValueSame(s, p, t, q, n, j, c.line, d.line);
    } else {
      BareValueSame(s, p, t, q, n, j, c.line, d.line);
    }
  }

  lemma AttrSame(s: CString, p: nat, t: CString, q: nat, n: nat, i: nat, word: string, l: nat, m: nat)
    requires Window(s, p, t, q, n) && QuotesAgree(s, p, t, q, n) && i <= n && Solid(word)
    ensures SameAttr(ScanAttr(s, word, p + i, l), p, ScanAttr(t, word, q + i, m), q, n)
  {
    hide ScanSpaces, ScanAttr, ValueAt, Closed, Matches, Window, Solid;
    WindowFits(s, p, t, q, n);
    SolidWord(word);
    AttrByValue(s, word, p + i, l);
    AttrByValue(t, word, q + i, m);
    MatchesSame(s, p, t, q, n, i, word);
    if Matches(s, p + i, word) {
      SpacesSame(s, p, t, q, n, i + |word|, l, m);
      var c, d := ScanSpaces(s, p + i + |word|, l), ScanSpaces(t, q + i + |word|, m);
      AtSame(s, p, t, q, n, c.p - p);
      if At(s, c.p) == '=' { ValueSame(s, p, t, q, n, c.p - p, c.line, d.line); }
    }
  }

  predicate SameAttrs(a: Attrs, p: nat, b: Attrs, q: nat, n: nat) {
    a.p - p == b.p - q && p <= a.p <= p + n && a.name == b.name && a.fmt == b.fmt && a.value == b.value
  }

  lemma TrySame(s: CString, p: nat, t: CString, q: nat, n: nat, i: nat, wanted: bool, word: string, l: nat, m: nat)
    requires Window(s, p, t, q, n) && QuotesAgree(s, p, t, q, n) && i <= n && Solid(word)
    ensures SameAttr(TryAttr(s, wanted, word, p + i, l), p, TryAttr(t, wanted, word, q + i, m), q, n)
  {
    hide ScanAttr;
    AttrSame(s, p, t, q, n, i, word, l, m);
  }

  lemma SolidWord(word: string)
    requires Solid(word)
    ensures word != ""
  {
  }

  lemma WordsAreSolid(k: Kind)
    ensures Solid("name") && Solid("fmt") && Solid(ValueWord(k)) && Solid(Word(k))
  {
  }

  lemma {:induction false} AttrsSame(s: CString, p: nat, t: CString, q: nat, n: nat, k: Kind, a: Attrs, b: Attrs)
    requires Window(s, p, t, q, n) && QuotesAgree(s, p, t, q, n) && SameAttrs(a, p, b, q, n)
    ensures SameAttrs(ScanAttrs(s, k, a), p, ScanAttrs(t, k, b), q, n)
    decreases Unset(k, a), 0
  {
    hide TryAttr, ScanSpaces, ValueWord, Word;
    WordsAreSolid(k);
    var i := a.p - p;
    var wantName := HasName(k) && a.name.None?;
    TrySame(s, p, t, q, n, i, wantName, "name", a.line, b.line);
    var n1, n2 := TryAttr(s, wantName, "name", a.p, a.line), TryAttr(t, wantName, "name", b.p, b.line);
    if n1.Hit? {
      GoOnSame(s, p, t, q, n, k, a, n1, a.(name := Some(n1.value)), n2, b.(name := Some(n2.value)));
    } else {
      var wantFmt := k == KVar && a.fmt.None?;
      TrySame(s, p, t, q, n, i, wantFmt, "fmt", n1.line, n2.line);
      var f1, f2 := TryAttr(s, wantFmt, "fmt", a.p, n1.line), TryAttr(t, wantFmt, "fmt", b.p, n2.line);
      if f1.Hit? {
        GoOnSame(s, p, t, q, n, k, a, f1, a.(fmt := Some(f1.value)), f2, b.(fmt := Some(f2.value)));
      } else {
        var wanted := k in {KVar, KIf, KElsif, KBreak, KContinue} && a.value.None?;
        TrySame(s, p, t, q, n, i, wanted, ValueWord(k), f1.line, f2.line);
        var v1, v2 := TryAttr(s, wanted, ValueWord(k), a.p, f1.line), TryAttr(t, wanted, ValueWord(k), b.p, f2.line);
        if v1.Hit? {
          GoOnSame(s, p, t, q, n, k, a, v1, a.(value := Some(v1.value)), v2, b.(value := Some(v2.value)));
        }
      }
    }
  }

  /** After one attribute: white space, and the attributes behind it. */
  lemma {:induction false} GoOnSame(s: CString, p: nat, t: CString, q: nat, n: nat, k: Kind, was: Attrs,
                                    x: AttrScan, a: Attrs, y: AttrScan, b: Attrs)
    requires Window(s, p, t, q, n) && QuotesAgree(s, p, t, q, n)
    requires x.Hit? && y.Hit? && x.end <= |s| && y.end <= |t| && p <= x.end && SameAttr(x, p, y, q, n)
    requires a.name == b.name && a.fmt == b.fmt && a.value == b.value && Unset(k, a) < Unset(k, was)
    ensures var c, d := ScanSpaces(s, x.end, x.line), ScanSpaces(t, y.end, y.line);
            SameAttrs(ScanAttrs(s, k, a.(p := c.p, line := c.line)), p,
                      ScanAttrs(t, k, b.(p := d.p, line := d.line)), q, n)
    decreases Unset(k, was), 0, 0
  {
    hide TryAttr, ScanSpaces, ScanAttrs;
    SpacesSame(s, p, t, q, n, x.end - p, x.line, y.line);
    var c, d := ScanSpaces(s, x.end, x.line), ScanSpaces(t, y.end, y.line);
    AttrsSame(s, p, t, q, n, k, a.(p := c.p, line := c.line), b.(p := d.p, line := d.line));
  }

  lemma EndSame(s: CString, p: nat, t: CString, q: nat, n: nat, i: nat, commentish: bool, container: bool)
    requires Window(s, p, t, q, n) && i <= n
    ensures var e, f := TagEnd(s, p + i, commentish, container), TagEnd(t, q + i, commentish, container);
            if e.Some? then f.Some? && e.value - p == f.value - q <= n else f.None?
  {
    AtSame(s, p, t, q, n, i);
    if i + 1 <= n { AtSame(s, p, t, q, n, i + 1); }
    if i + 2 <= n { AtSame(s, p, t, q, n, i + 2); }
  }

  // ---------------------------------------------------------------- the name of a tag

  lemma StartSame(s: CString, p: nat, t: CString, q: nat, n: nat, l: nat, m: nat)
    requires Window(s, p, t, q, n) && n >= 1 && s[p] == '<'
    ensures At(t, q) == '<' && (Commentish(s, p) <==> Commentish(t, q))
    ensures NameStart(s, p, l).p - p == NameStart(t, q, m).p - q <= n
  {
    hide ScanSpaces;
    AtSame(s, p, t, q, n, 0);
    AtSame(s, p, t, q, n, 1);
    if n >= 2 { AtSame(s, p, t, q, n, 2); }
    if n >= 3 { AtSame(s, p, t, q, n, 3); }
    if Commentish(s, p) { SpacesSame(s, p, t, q, n, 4, l, m); }
  }

  lemma KeywordSame(s: CString, p: nat, t: CString, q: nat, n: nat, i: nat)
    requires Window(s, p, t, q, n) && i <= n
    ensures Keyword(s, p + i) == Keyword(t, q + i)
    ensures Keyword(s, p + i).Some? ==> i + |Word(Keyword(s, p + i).value)| <= n
  {
    hide Matches, Word;
    forall k: Kind
      ensures Matches(s, p + i, Word(k)) <==> Matches(t, q + i, Word(k))
      ensures Matches(s, p + i, Word(k)) ==> i + |Word(k)| <= n
    {
      WordsAreSolid(k);
      MatchesSame(s, p, t, q, n, i, Word(k));
    }
  }

  /** The tag name at p, if there is one. */
  function NameAt(s: CString, p: nat): Option<Kind> {
    if At(s, p) != '<' then None else Keyword(s, NameStart(s, p, 0).p)
  }

  // ---------------------------------------------------------------- whole tags

  /** No tag at either place, or the same tag with its end at the same place of the window. */
  predicate SameTag(a: TagScan, p: nat, b: TagScan, q: nat, n: nat) {
    if a.Found? then b.Found? && a.tag == b.tag && a.end - p == b.end - q && a.end <= p + n else b.NoTag?
  }

  lemma RestSame(src: Source, p: nat, other: Source, q: nat, n: nat, depth: nat, commentish: bool, k: Kind, i: nat,
                 l: nat, m: nat)
    requires Window(src.text, p, other.text, q, n) && QuotesAgree(src.text, p, other.text, q, n) && i <= n
    requires other.fmts == src.fmts && other.includeDepth == src.includeDepth
    ensures SameTag(ScanTagRest(src, depth, commentish, k, p + i, l), p,
                    ScanTagRest(other, depth, commentish, k, q + i, m), q, n)
  {
    hide ScanAttrs, ScanSpaces, TagEnd;
    var s, t := src.text, other.text;
    SpacesSame(s, p, t, q, n, i, l, m);
    SpacesForward(s, p + i, l);
    var c, d := ScanSpaces(s, p + i, l), ScanSpaces(t, q + i, m);
    var a, b := Attrs(c.p, c.line, None, None, None), Attrs(d.p, d.line, None, None, None);
    AttrsSame(s, p, t, q, n, k, a, b);
    var e := if c.p != p + i then ScanAttrs(s, k, a) else a;
    EndSame(s, p, t, q, n, e.p - p, commentish, Container(k));
    SameBuild(src, other, depth, k, AttrsAfterName(s, k, p + i, l), AttrsAfterName(t, k, q + i, m));
  }

  lemma SpacesForward(s: CString, p: nat, l: nat)
    requires p <= |s|
    ensures p <= ScanSpaces(s, p, l).p <= |s|
  {
  }

  lemma SameBuild(src: Source, other: Source, depth: nat, k: Kind, a: Option<Attrs>, b: Option<Attrs>)
    requires other.fmts == src.fmts && other.includeDepth == src.includeDepth
    requires a.Some? && b.Some? ==>
               a.value.name == b.value.name && a.value.fmt == b.value.fmt && a.value.value == b.value.value
    ensures a.Some? && b.Some? ==> BuildTag(src, depth, k, a.value) == BuildTag(other, depth, k, b.value)
  {
  }

  /** Equal windows hold the same tag at their start; that they may end inside a quoted value matters
      only if there is the name of a tag. */
  lemma TagSame(src: Source, p: nat, other: Source, q: nat, n: nat, depth: nat, l: nat, m: nat)
    requires Window(src.text, p, other.text, q, n) && n >= 1 && src.text[p] == '<'
    requires other.fmts == src.fmts && other.includeDepth == src.includeDepth
    requires NameAt(src.text, p).Some? ==> QuotesAgree(src.text, p, other.text, q, n)
    ensures NameAt(src.text, p) == NameAt(other.text, q)
    ensures SameTag(ScanTag(src, depth, p, l), p, ScanTag(other, depth, q, m), q, n)
  {
    hide ScanTagRest, Keyword, NameStart, Window, QuotesAgree, Word;
    var s, t := src.text, other.text;
    WindowFits(s, p, t, q, n);
    StartSame(s, p, t, q, n, l, m);
    StartSame(s, p, t, q, n, 0, 0);
    StartSame(s, p, t, q, n, l, 0);
    var i := NameStart(s, p, l).p - p;
    KeywordSame(s, p, t, q, n, i);
    var k := Keyword(s, p + i);
    if k.Some? {
      RestSame(src, p, other, q, n, depth, Commentish(s, p), k.value, i + |Word(k.value)|,
               NameStart(s, p, l).line, NameStart(t, q, m).line);
    }
  }

  /** The tag at a place, and its end, do not depend on the line number. */
  lemma TagOnAnyLine(src: Source, depth: nat, p: nat, l: nat, m: nat)
    ensures var a, b := ScanTag(src, depth, p, l), ScanTag(src, depth, p, m);
            if a.Found? then b.Found? && a.tag == b.tag && a.end == b.end else b.NoTag?
  {
    hide ScanTagRest, NameAt;
    DeadAtEnd(src.text);
    if At(src.text, p) == '<' {
      TagSame(src, p, src, p, |src.text| - p, depth, l, m);
    }
  }

  // ---------------------------------------------------------------- a text alone and in its context

  /** A value found in the text alone is found in any context. */
  lemma ValueInContext(s: CString, p: nat, t: CString, q: nat, n: nat, j: nat, l: nat, m: nat)
    requires Window(s, p, t, q, n) && j <= n && p + n == |s|
    ensures var a, b := ValueAt(s, Cursor(p + j, l)), ValueAt(t, Cursor(q + j, m));
            a.Hit? ==> SameAttr(a, p, b, q, n)
  {
    hide QuotedEnd, BareEnd, Window, SameAttr;
    WindowFits(s, p, t, q, n);
    AtSame(s, p, t, q, n, j);
    if !IsQuote(At(s, p + j)) {
      BareValueSame(s, p, t, q, n, j, l, m);
    } else if ValueAt(s, Cursor(p + j, l)).Hit? {
      assert p + (j + 1) <= QuotedEnd(s, p + j + 1, s[p + j]) < p + n;
      QuotedValueSame(s, p, t, q, n, j, l, m);
    }
  }

  /** An attribute found in the text alone is found in any context; one whose first letter does not
      stand there is found in neither. */
  lemma TryInContext(s: CString, p: nat, t: CString, q: nat, n: nat, i: nat, wanted: bool, word: string, l: nat, m: nat)
    requires Window(s, p, t, q, n) && i <= n && p + n == |s| && Solid(word)
    ensures var a, b := TryAttr(s, wanted, word, p + i, l), TryAttr(t, wanted, word, q + i, m);
            && (a.Hit? ==> SameAttr(a, p, b, q, n) && Lower(At(s, p + i)) == Lower(word[0]))
            && (Lower(At(s, p + i)) != Lower(word[0]) ==> b.Miss?)
  {
    hide ScanSpaces, ScanAttr, ValueAt, Matches, Window, Solid, SameAttr;
    WindowFits(s, p, t, q, n);
    SolidWord(word);
    AttrByValue(s, word, p + i, l);
    AttrByValue(t, word, q + i, m);
    MatchesSame(s, p, t, q, n, i, word);
    FirstLetter(s, p + i, word);
    if Matches(s, p + i, word) {
      SpacesSame(s, p, t, q, n, i + |word|, l, m);
      var c, d := ScanSpaces(s, p + i + |word|, l), ScanSpaces(t, q + i + |word|, m);
      var j := c.p - p;
      AtSame(s, p, t, q, n, j);
      if At(s, c.p) == '=' {
        SpacesSame(s, p, t, q, n, j + 1, c.line, d.line);
        SpacesForward(s, c.p + 1, c.line);
        var e, f := ScanSpaces(s, c.p + 1, c.line), ScanSpaces(t, d.p + 1, d.line);
        ValueInContext(s, p, t, q, n, e.p - p, e.line, f.line);
      }
    }
  }

  lemma FirstLetter(s: CString, p: nat, word: string)
    requires word != ""
    ensures Matches(s, p, word) ==> Lower(At(s, p)) == Lower(word[0])
  {
    if Matches(s, p, word) { assert Lower(s[p + 0]) == Lower(word[0]); }
  }

  /** What can end a tag. */
  predicate Ender(c: char) { c == '>' || c == '/' || c == '-' }

  lemma WordLetters(k: Kind)
    ensures Lower("name"[0]) == 'n' && Lower("fmt"[0]) == 'f' && Lower(ValueWord(k)[0]) in {'d', 'v', 'l'}
  {
  }

  lemma {:induction false} AttrsInContext(s: CString, p: nat, t: CString, q: nat, n: nat, k: Kind, a: Attrs, b: Attrs)
    requires Window(s, p, t, q, n) && p + n == |s| && SameAttrs(a, p, b, q, n)
    ensures Ender(At(s, ScanAttrs(s, k, a).p)) ==> SameAttrs(ScanAttrs(s, k, a), p, ScanAttrs(t, k, b), q, n)
    decreases Unset(k, a), 1
  {
    hide TryAttr, ScanSpaces, ValueWord, Word, Window;
    WindowFits(s, p, t, q, n);
    WordsAreSolid(k);
    WordLetters(k);
    var i := a.p - p;
    var wantName := HasName(k) && a.name.None?;
    TryInContext(s, p, t, q, n, i, wantName, "name", a.line, b.line);
    var n1, n2 := TryAttr(s, wantName, "name", a.p, a.line), TryAttr(t, wantName, "name", b.p, b.line);
    if n1.Hit? {
      GoOnInContext(s, p, t, q, n, k, a, n1, a.(name := Some(n1.value)), n2, b.(name := Some(n2.value)));
    } else {
      LaterInContext(s, p, t, q, n, k, a, b, n1, n2);
    }
  }

  /** The attribute "name" is not found in the text alone. */
  lemma {:induction false} LaterInContext(s: CString, p: nat, t: CString, q: nat, n: nat, k: Kind, a: Attrs, b: Attrs,
                                          n1: AttrScan, n2: AttrScan)
    requires Window(s, p, t, q, n) && p + n == |s| && SameAttrs(a, p, b, q, n) && b.p <= |t|
    requires n1 == TryAttr(s, HasName(k) && a.name.None?, "name", a.p, a.line) && n1.Miss?
    requires n2 == TryAttr(t, HasName(k) && b.name.None?, "name", b.p, b.line)
    requires Lower(At(s, a.p)) != 'n' ==> n2.Miss?
    ensures Ender(At(s, ScanAttrs(s, k, a).p)) ==> SameAttrs(ScanAttrs(s, k, a), p, ScanAttrs(t, k, b), q, n)
    decreases Unset(k, a), 0
  {
    hide TryAttr, ScanSpaces, ValueWord, Word, Window;
    WindowFits(s, p, t, q, n);
    WordsAreSolid(k);
    WordLetters(k);
    var i := a.p - p;
    var wantFmt := k == KVar && a.fmt.None?;
    TryInContext(s, p, t, q, n, i, wantFmt, "fmt", n1.line, n2.line);
    var f1, f2 := TryAttr(s, wantFmt, "fmt", a.p, n1.line), TryAttr(t, wantFmt, "fmt", b.p, n2.line);
    if f1.Hit? {
      GoOnInContext(s, p, t, q, n, k, a, f1, a.(fmt := Some(f1.value)), f2, b.(fmt := Some(f2.value)));
    } else {
      var wanted := k in {KVar, KIf, KElsif, KBreak, KContinue} && a.value.None?;
      TryInContext(s, p, t, q, n, i, wanted, ValueWord(k), f1.line, f2.line);
      var v1, v2 := TryAttr(s, wanted, ValueWord(k), a.p, f1.line), TryAttr(t, wanted, ValueWord(k), b.p, f2.line);
      if v1.Hit? {
        GoOnInContext(s, p, t, q, n, k, a, v1, a.(value := Some(v1.value)), v2, b.(value := Some(v2.value)));
      }
    }
  }

  lemma {:induction false} GoOnInContext(s: CString, p: nat, t: CString, q: nat, n: nat, k: Kind, was: Attrs,
                                         x: AttrScan, a: Attrs, y: AttrScan, b: Attrs)
    requires Window(s, p, t, q, n) && p + n == |s|
    requires x.Hit? && y.Hit? && x.end <= |s| && y.end <= |t| && p <= x.end && SameAttr(x, p, y, q, n)
    requires a.name == b.name && a.fmt == b.fmt && a.value == b.value && Unset(k, a) < Unset(k, was)
    ensures var c, d := ScanSpaces(s, x.end, x.line), ScanSpaces(t, y.end, y.line);
            var r, r' := ScanAttrs(s, k, a.(p := c.p, line := c.line)), ScanAttrs(t, k, b.(p := d.p, line := d.line));
            Ender(At(s, r.p)) ==> SameAttrs(r, p, r', q, n)
    decreases Unset(k, was), 0, 0
  {
    hide TryAttr, ScanSpaces, ScanAttrs;
    SpacesSame(s, p, t, q, n, x.end - p, x.line, y.line);
    var c, d := ScanSpaces(s, x.end, x.line), ScanSpaces(t, y.end, y.line);
    AttrsInContext(s, p, t, q, n, k, a.(p := c.p, line := c.line), b.(p := d.p, line := d.line));
  }

  lemma EndsWithEnder(s: CString, p: nat, commentish: bool, container: bool)
    ensures TagEnd(s, p, commentish, container).Some? ==> Ender(At(s, p))
  {
  }

  lemma RestInContext(src: Source, p: nat, other: Source, q: nat, n: nat, depth: nat, commentish: bool, k: Kind, i: nat,
                      l: nat, m: nat)
    requires Window(src.text, p, other.text, q, n) && i <= n && p + n == |src.text|
    requires other.fmts == src.fmts && other.includeDepth == src.includeDepth
    ensures var a := ScanTagRest(src, depth, commentish, k, p + i, l);
            var b := ScanTagRest(other, depth, commentish, k, q + i, m);
            a.Found? ==> SameTag(a, p, b, q, n)
  {
    hide ScanAttrs, ScanSpaces, TagEnd, Ender;
    var s, t := src.text, other.text;
    SpacesSame(s, p, t, q, n, i, l, m);
    SpacesForward(s, p + i, l);
    var c, d := ScanSpaces(s, p + i, l), ScanSpaces(t, q + i, m);
    var a, b := Attrs(c.p, c.line, None, None, None), Attrs(d.p, d.line, None, None, None);
    AttrsInContext(s, p, t, q, n, k, a, b);
    var e := if c.p != p + i then ScanAttrs(s, k, a) else a;
    EndsWithEnder(s, e.p, commentish, Container(k));
    EndSame(s, p, t, q, n, e.p - p, commentish, Container(k));
    if ScanTagRest(src, depth, commentish, k, p + i, l).Found? {
      SameBuild(src, other, depth, k, AttrsAfterName(s, k, p + i, l), AttrsAfterName(t, k, q + i, m));
    }
  }

  /** A tag found at the end of a text alone is found in any context of the text. */
  lemma TagInContext(src: Source, p: nat, other: Source, q: nat, n: nat, depth: nat, l: nat, m: nat)
    requires Window(src.text, p, other.text, q, n) && n >= 1 && src.text[p] == '<' && p + n == |src.text|
    requires other.fmts == src.fmts && other.includeDepth == src.includeDepth
    ensures var a, b := ScanTag(src, depth, p, l), ScanTag(other, depth, q, m);
            a.Found? ==> SameTag(a, p, b, q, n)
  {
    hide ScanTagRest, Keyword, NameStart, Window, Word;
    var s, t := src.text, other.text;
    WindowFits(s, p, t, q, n);
    StartSame(s, p, t, q, n, l, m);
    var i := NameStart(s, p, l).p - p;
    KeywordSame(s, p, t, q, n, i);
    var k := Keyword(s, p + i);
    if k.Some? {
      RestInContext(src, p, other, q, n, depth, Commentish(s, p), k.value, i + |Word(k.value)|,
                    NameStart(s, p, l).line, NameStart(t, q, m).line);
    }
  }

  // ---------------------------------------------------------------- comments are no tags

  predicate StartsComment(s: CString, p: nat) { At(s, p) == '<' && At(s, p + 1) == '*' }

  lemma NoTagInComment(src: Source, depth: nat, i: nat, line: nat)
    requires StartsComment(src.text, i)
    ensures ScanTag(src, depth, i, line).NoTag?
  {
    hide Matches, Word;
    forall k: Kind ensures !Matches(src.text, i + 1, Word(k)) {
      WordStart(k);
      FirstLetter(src.text, i + 1, Word(k));
    }
  }

  lemma WordStart(k: Kind)
    ensures Word(k) != "" && Lower(Word(k)[0]) != '*'
  {
  }
}
