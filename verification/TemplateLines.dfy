/** The line number the scanner counts. */
module TemplateLines {
  import opened Prelude
  import opened TemplateScanner
  import opened TemplateParser
  import opened TemplateLocal

  /** Line ends in s[a..b]. */
  function Newlines(s: CString, a: nat, b: nat): nat
    requires b <= |s|
    decreases b - a
  {
    if a >= b then 0 else (if s[a] == '\n' then 1 else 0) + Newlines(s, a + 1, b)
  }

  lemma {:induction false} NewlinesSplit(s: CString, a: nat, b: nat, c: nat)
    requires a <= b <= c <= |s|
    ensures Newlines(s, a, c) == Newlines(s, a, b) + Newlines(s, b, c)
    decreases b - a
  {
    if a < b { NewlinesSplit(s, a + 1, b, c); }
  }

  lemma {:induction false} NoNewlines(s: CString, a: nat, b: nat)
    requires a <= b <= |s| && forall i | a <= i < b :: s[i] != '\n'
    ensures Newlines(s, a, b) == 0
    decreases b - a
  {
    if a < b { NoNewlines(s, a + 1, b); }
  }

  lemma {:induction false} SpacesLines(s: CString, p: nat, line: nat)
    requires p <= |s|
    ensures var c := ScanSpaces(s, p, line); c.line == line + Newlines(s, p, c.p)
    decreases |s| - p
  {
    if IsBlank(At(s, p)) {
      SpacesLines(s, p + 1, if At(s, p) == '\n' then line + 1 else line);
    }
  }

  lemma {:induction false} CommentLines(s: CString, p: nat, line: nat)
    requires p <= |s|
    ensures var c := FindCommentEnd(s, p, line);
            c.line == line + Newlines(s, p, if c.Comment? then c.end else |s|)
    decreases |s| - p
  {
    if p < |s| {
      var line1 := if s[p] == '\n' then line + 1 else line;
      if s[p] == '*' && At(s, p + 1) == '>' {
        NoNewlines(s, p + 1, p + 2);
      } else {
        CommentLines(s, p + 1, line1);
      }
    }
  }

  lemma {:induction false} QuotedLines(s: CString, p: nat, quote: char)
    requires p <= |s|
    ensures Newlines(s, p, QuotedEnd(s, p, quote)) == 0
    decreases |s| - p
  {
    if p < |s| && s[p] != quote && s[p] != '\n' { QuotedLines(s, p + 1, quote); }
  }

  lemma {:induction false} BareLines(s: CString, p: nat)
    requires p <= |s|
    ensures Newlines(s, p, BareEnd(s, p)) == 0
    decreases |s| - p
  {
    if IsAlnum(At(s, p)) || At(s, p) == '.' || At(s, p) == '-' { BareLines(s, p + 1); }
  }

  predicate Wordlike(word: string) { word != "" && forall i | 0 <= i < |word| :: Lower(word[i]) != '\n' }

  lemma MatchLines(s: CString, p: nat, word: string)
    requires Matches(s, p, word) && Wordlike(word)
    ensures Newlines(s, p, p + |word|) == 0
  {
    forall i | p <= i < p + |word| ensures s[i] != '\n' {
      var k := i - p;
      assert Lower(s[p + k]) == Lower(word[k]);
    }
    NoNewlines(s, p, p + |word|);
  }

  /** From the '=' of an attribute to its end. */
  lemma ValueLines(s: CString, p: nat, line: nat)
    requires p < |s| && s[p] == '='
    ensures var d := ScanSpaces(s, p + 1, line);
            var quote := At(s, d.p);
            var q := QuotedEnd(s, if d.p < |s| then d.p + 1 else d.p, quote);
            var b := BareEnd(s, d.p);
            && ((quote == '"' || quote == '\'') && At(s, q) == quote ==> d.line == line + Newlines(s, p, q + 1))
            && d.line == line + Newlines(s, p, b)
  {
    hide Newlines, QuotedEnd, BareEnd, ScanSpaces;
    var d := ScanSpaces(s, p + 1, line);
    var quote := At(s, d.p);
    SpacesLines(s, p + 1, line);
    NoNewlines(s, p, p + 1);
    NewlinesSplit(s, p, p + 1, d.p);
    BareLines(s, d.p);
    NewlinesSplit(s, p, d.p, BareEnd(s, d.p));
    if quote == '"' || quote == '\'' {
      var q := QuotedEnd(s, d.p + 1, quote);
      if At(s, q) == quote {
        QuotedLines(s, d.p + 1, quote);
        NoNewlines(s, d.p, d.p + 1);
        NoNewlines(s, q, q + 1);
        NewlinesSplit(s, p, d.p, d.p + 1);
        NewlinesSplit(s, p, d.p + 1, q);
        NewlinesSplit(s, p, q, q + 1);
      }
    }
  }

  /** A found attribute counts its lines; a failed attempt only miscounts when the attribute's
      first letter stands at p. */
  lemma AttrLines(s: CString, word: string, p: nat, line: nat)
    requires p <= |s| && Wordlike(word)
    ensures var a := ScanAttr(s, word, p, line);
            && (a.Hit? ==> a.line == line + Newlines(s, p, a.end) && Matches(s, p, word))
            && (a.line == line || (p < |s| && Lower(s[p]) == Lower(word[0])))
  {
    hide Newlines, QuotedEnd, BareEnd, ScanSpaces, ScanAttr;
    AttrParts(s, word, p, line);
    if Matches(s, p, word) {
      assert Lower(s[p + 0]) == Lower(word[0]);
      MatchLines(s, p, word);
      var q := p + |word|;
      var c := ScanSpaces(s, q, line);
      SpacesLines(s, q, line);
      NewlinesSplit(s, p, q, c.p);
      var e := ScanAttr(s, word, p, line);
      if e.Hit? {
        ValueLines(s, c.p, c.line);
        NewlinesSplit(s, p, c.p, e.end);
      }
    }
  }

  /** How an attribute that was found is put together. */
  lemma AttrParts(s: CString, word: string, p: nat, line: nat)
    requires p <= |s| && word != ""
    ensures var a := ScanAttr(s, word, p, line);
            && (!Matches(s, p, word) ==> a == Miss(line))
            && (a.Hit? ==>
                  var c := ScanSpaces(s, p + |word|, line);
                  && At(s, c.p) == '='
                  && var d := ScanSpaces(s, c.p + 1, c.line);
                  && var quote := At(s, d.p);
                  && a.line == d.line
                  && if quote == '"' || quote == '\'' then
                       d.p < |s|
                       && var q := QuotedEnd(s, d.p + 1, quote);
                       At(s, q) == quote && a.end == q + 1
                     else a.end == BareEnd(s, d.p))
  {
    hide QuotedEnd, BareEnd, ScanSpaces;
  }

  lemma TryLines(s: CString, wanted: bool, word: string, p: nat, line: nat)
    requires p <= |s| && Wordlike(word)
    ensures var a := TryAttr(s, wanted, word, p, line);
            && (a.Hit? ==> a.line == line + Newlines(s, p, a.end) && Matches(s, p, word))
            && (a.line == line || a.Hit? || (p < |s| && Lower(s[p]) == Lower(word[0])))
  {
    hide ScanAttr, Newlines, Matches;
    AttrLines(s, word, p, line);
  }

  /** The first letters of attribute names. */
  predicate AttrLetter(s: CString, p: nat) {
    p < |s| && Lower(s[p]) in {'n', 'f', 'd', 'v', 'l'}
  }

  predicate AttrsCounted(s: CString, a: Attrs, r: Attrs)
    requires r.p <= |s|
  {
    r.line == a.line + Newlines(s, a.p, r.p) || AttrLetter(s, r.p)
  }

  lemma {:induction false} AttrsLines(s: CString, k: Kind, a: Attrs)
    requires a.p <= |s|
    ensures AttrsCounted(s, a, ScanAttrs(s, k, a))
    decreases Unset(k, a), 1
  {
    hide TryAttr, ScanSpaces, ScanAttrs, AttrsCounted;
    WordsAreWordlike(k);
    var n := TryAttr(s, HasName(k) && a.name.None?, "name", a.p, a.line);
    if n.Hit? {
      NameLines(s, k, a, n);
    } else {
      var f := TryAttr(s, k == KVar && a.fmt.None?, "fmt", a.p, n.line);
      if f.Hit? {
        FmtLines(s, k, a, n, f);
      } else {
        LastLines(s, k, a, n, f);
      }
    }
  }

  /** The attribute "name" stands at a.p. */
  lemma {:induction false} NameLines(s: CString, k: Kind, a: Attrs, n: AttrScan)
    requires a.p <= |s| && n == TryAttr(s, HasName(k) && a.name.None?, "name", a.p, a.line) && n.Hit?
    ensures AttrsCounted(s, a, ScanAttrs(s, k, a))
    decreases Unset(k, a), 0
  {
    hide TryAttr, ScanSpaces, Newlines, Matches, Wordlike, ValueWord, AttrsCounted;
    WordsAreWordlike(k);
    TryLines(s, HasName(k) && a.name.None?, "name", a.p, a.line);
    var c := ScanSpaces(s, n.end, n.line);
    SpacesLines(s, n.end, n.line);
    NextAttr(s, k, a, n.end, a.(p := c.p, line := c.line, name := Some(n.value)));
  }

  /** The attribute "fmt" stands at a.p. */
  lemma {:induction false} FmtLines(s: CString, k: Kind, a: Attrs, n: AttrScan, f: AttrScan)
    requires a.p <= |s| && n == TryAttr(s, HasName(k) && a.name.None?, "name", a.p, a.line) && n.Miss?
    requires f == TryAttr(s, k == KVar && a.fmt.None?, "fmt", a.p, n.line) && f.Hit?
    ensures AttrsCounted(s, a, ScanAttrs(s, k, a))
    decreases Unset(k, a), 0
  {
    hide TryAttr, ScanSpaces, Newlines, Matches, Wordlike, ValueWord, AttrsCounted;
    WordsAreWordlike(k);
    TryLines(s, HasName(k) && a.name.None?, "name", a.p, a.line);
    TryLines(s, k == KVar && a.fmt.None?, "fmt", a.p, n.line);
    Exclusive(s, a.p, a.line, n.line, "name", "fmt");
    var c := ScanSpaces(s, f.end, f.line);
    SpacesLines(s, f.end, f.line);
    NextAttr(s, k, a, f.end, a.(p := c.p, line := c.line, fmt := Some(f.value)));
  }

  /** Neither "name" nor "fmt" is found at a.p. */
  lemma {:induction false} LastLines(s: CString, k: Kind, a: Attrs, n: AttrScan, f: AttrScan)
    requires a.p <= |s| && n == TryAttr(s, HasName(k) && a.name.None?, "name", a.p, a.line) && n.Miss?
    requires f == TryAttr(s, k == KVar && a.fmt.None?, "fmt", a.p, n.line) && f.Miss?
    ensures AttrsCounted(s, a, ScanAttrs(s, k, a))
    decreases Unset(k, a), 0
  {
    hide TryAttr, ScanSpaces, Newlines, Matches, Wordlike, ValueWord, ScanAttrs;
    WordsAreWordlike(k);
    TryLines(s, HasName(k) && a.name.None?, "name", a.p, a.line);
    TryLines(s, k == KVar && a.fmt.None?, "fmt", a.p, n.line);
    var wanted := k in {KVar, KIf, KElsif, KBreak, KContinue} && a.value.None?;
    TryLines(s, wanted, ValueWord(k), a.p, f.line);
    var v := TryAttr(s, wanted, ValueWord(k), a.p, f.line);
    LastAttr(s, k, a, n, f, v);
    if v.Hit? {
      Exclusive(s, a.p, a.line, n.line, "name", ValueWord(k));
      Exclusive(s, a.p, n.line, f.line, "fmt", ValueWord(k));
      var c := ScanSpaces(s, v.end, v.line);
      SpacesLines(s, v.end, v.line);
      NextAttr(s, k, a, v.end, a.(p := c.p, line := c.line, value := Some(v.value)));
    } else {
      NewlinesNone(s, a.p);
    }
  }

  lemma LastAttr(s: CString, k: Kind, a: Attrs, n: AttrScan, f: AttrScan, v: AttrScan)
    requires a.p <= |s| && ValueWord(k) != ""
    requires n == TryAttr(s, HasName(k) && a.name.None?, "name", a.p, a.line) && n.Miss?
    requires f == TryAttr(s, k == KVar && a.fmt.None?, "fmt", a.p, n.line) && f.Miss?
    requires v == TryAttr(s, k in {KVar, KIf, KElsif, KBreak, KContinue} && a.value.None?, ValueWord(k), a.p, f.line)
    ensures v.Miss? ==> ScanAttrs(s, k, a) == a.(line := v.line)
    ensures v.Hit? ==>
              var c := ScanSpaces(s, v.end, v.line);
              && ScanAttrs(s, k, a) == ScanAttrs(s, k, a.(p := c.p, line := c.line, value := Some(v.value)))
              && Unset(k, a.(p := c.p, line := c.line, value := Some(v.value))) < Unset(k, a)
  {
    hide TryAttr, ScanSpaces, ValueWord;
  }

  /** After an attribute that ends at `end`, and the white space behind it. */
  lemma {:induction false} NextAttr(s: CString, k: Kind, a: Attrs, end: nat, b: Attrs)
    requires a.p <= end <= b.p <= |s| && Unset(k, b) < Unset(k, a)
    requires b.line == a.line + Newlines(s, a.p, end) + Newlines(s, end, b.p)
    ensures AttrsCounted(s, a, ScanAttrs(s, k, b))
    decreases Unset(k, b), 2
  {
    hide Newlines, AttrLetter, ScanAttrs;
    AttrsLines(s, k, b);
    var r := ScanAttrs(s, k, b);
    NewlinesSplit(s, a.p, end, b.p);
    NewlinesSplit(s, a.p, b.p, r.p);
  }

  lemma WordsAreWordlike(k: Kind)
    ensures Wordlike("name") && Wordlike("fmt") && Wordlike(ValueWord(k))
    ensures ValueWord(k)[0] in {'d', 'v', 'l'}
  {
  }

  lemma NewlinesNone(s: CString, p: nat)
    requires p <= |s|
    ensures Newlines(s, p, p) == 0
  {
  }

  /** Two attribute names with different first letters do not both start at p. */
  lemma Exclusive(s: CString, p: nat, before: nat, after: nat, missed: string, hit: string)
    requires missed != "" && hit != "" && Lower(missed[0]) != Lower(hit[0])
    requires after == before || (p < |s| && Lower(s[p]) == Lower(missed[0]))
    requires Matches(s, p, hit)
    ensures after == before
  {
    assert Lower(s[p + 0]) == Lower(hit[0]);
  }

  lemma RestLines(src: Source, depth: nat, commentish: bool, k: Kind, q: nat, line: nat)
    requires q <= |src.text|
    ensures var r := ScanTagRest(src, depth, commentish, k, q, line);
            r.Found? ==> r.line == line + Newlines(src.text, q, r.end)
  {
    hide Newlines, ScanSpaces, ScanAttrs, BuildTag;
    var s := src.text;
    var d := ScanSpaces(s, q, line);
    SpacesLines(s, q, line);
    NewlinesNone(s, d.p);
    AttrsLines(s, k, Attrs(d.p, d.line, None, None, None));
    var r := ScanTagRest(src, depth, commentish, k, q, line);
    if r.Found? {
      var a := AttrsAfterName(s, k, q, line).value;
      NewlinesSplit(s, q, d.p, a.p);
      NewlinesSplit(s, q, a.p, r.end);
      NoNewlines(s, a.p, r.end);
    }
  }

  lemma KeywordLines(s: CString, p: nat)
    ensures var k := Keyword(s, p); k.Some? ==> Newlines(s, p, p + |Word(k.value)|) == 0
  {
    hide Keyword, Newlines, Matches;
    var k := Keyword(s, p);
    if k.Some? {
      assert Wordlike(Word(k.value)) by { TagWords(k.value); }
      MatchLines(s, p, Word(k.value));
    }
  }

  lemma TagWords(k: Kind)
    ensures Wordlike(Word(k))
  {
  }

  /** A tag that is accepted has counted exactly the line ends inside it. */
  lemma TagLines(src: Source, depth: nat, p: nat, line: nat)
    ensures var r := ScanTag(src, depth, p, line);
            r.Found? ==> r.line == line + Newlines(src.text, p, r.end)
  {
    hide Newlines, ScanSpaces, ScanTagRest, Keyword;
    var s := src.text;
    var r := ScanTag(src, depth, p, line);
    if r.Found? {
      var c := NameStart(s, p, line);
      var k := Keyword(s, c.p).value;
      if Commentish(s, p) {
        SpacesLines(s, p + 4, line);
        NoNewlines(s, p, p + 4);
        NewlinesSplit(s, p, p + 4, c.p);
      } else {
        NoNewlines(s, p, p + 1);
      }
      var q := c.p + |Word(k)|;
      KeywordLines(s, c.p);
      RestLines(src, depth, Commentish(s, p), k, q, c.line);
      NewlinesSplit(s, p, c.p, q);
      NewlinesSplit(s, p, q, r.end);
    }
  }

  function StopEnd(f: Stop): nat { if f.AtEnd? then f.i else f.end }

  /** A comment that starts at p and has no end. */
  predicate OpenAt(s: CString, p: nat) {
    StartsComment(s, p) && forall j | p + 2 <= j < |s| - 1 :: !(s[j] == '*' && s[j + 1] == '>')
  }

  /** The line ends that are counted again, for each comment without end that starts in s[a..b]. */
  function Recount(s: CString, a: nat, b: nat): nat
    requires b <= |s|
    decreases b - a
  {
    if a >= b then 0 else (if OpenAt(s, a) then Newlines(s, a + 2, |s|) else 0) + Recount(s, a + 1, b)
  }

  lemma {:induction false} OpenComment(s: CString, p: nat, line: nat)
    requires p <= |s|
    ensures FindCommentEnd(s, p, line).Unterminated? <==>
              forall j | p <= j < |s| - 1 :: !(s[j] == '*' && s[j + 1] == '>')
    decreases |s| - p
  {
    if p < |s| && !(s[p] == '*' && At(s, p + 1) == '>') {
      OpenComment(s, p + 1, if s[p] == '\n' then line + 1 else line);
    }
  }

  /** What is tried at a '<'. */
  lemma CommentTried(s: CString, i: nat, line: nat)
    requires i < |s|
    ensures var c := ScanComment(s, i, line);
            && (c.Unterminated? <==> OpenAt(s, i))
            && (c.Unterminated? ==> c.line == line + Newlines(s, i + 2, |s|))
            && (c.Comment? ==> c.line == line + Newlines(s, i, c.end))
  {
    hide FindCommentEnd, Newlines;
    if At(s, i) == '<' && At(s, i + 1) == '*' {
      OpenComment(s, i + 2, line);
      CommentLines(s, i + 2, line);
      NoNewlines(s, i, i + 2);
      var c := ScanComment(s, i, line);
      if c.Comment? { NewlinesSplit(s, i, i + 2, c.end); }
    }
  }

  lemma RecountFirst(s: CString, a: nat, b: nat)
    requires a <= b <= |s|
    ensures a == b ==> Recount(s, a, b) == 0
    ensures a < b ==> Recount(s, a, b) == (if OpenAt(s, a) then Newlines(s, a + 2, |s|) else 0) + Recount(s, a + 1, b)
  {
    hide Newlines, OpenAt;
  }

  lemma NewlinesFirst(s: CString, a: nat, b: nat)
    requires a < b <= |s|
    ensures Newlines(s, a, b) == (if s[a] == '\n' then 1 else 0) + Newlines(s, a + 1, b)
  {
  }

  /** Up to a stop the line ends are counted once, and those behind a comment without end once more. */
  lemma {:induction false} StopLines(src: Source, depth: nat, i: nat, line: nat, bad: bool)
    requires i <= |src.text|
    ensures var f := FindStop(src, depth, i, line, bad);
            f.line == line + Newlines(src.text, i, StopEnd(f)) + Recount(src.text, i, f.i)
    decreases |src.text| - i
  {
    var s := src.text;
    if i == |s| {
      NewlinesNone(s, i);
    } else {
      hide ScanTag, ScanComment, Newlines, Recount, OpenAt;
      var line1 := if s[i] == '\n' then line + 1 else line;
      CommentTried(s, i, line1);
      var c := ScanComment(s, i, line1);
      var line2 := if c.Unterminated? then c.line else line1;
      TagLines(src, depth, i, line2);
      OpenIsNoTag(src, depth, i, line2);
      RecountFirst(s, i, i);
      StopLines(src, depth, i + 1, line2, bad || c.Unterminated?);
      var f := FindStop(src, depth, i, line, bad);
      if f.i > i {
        RecountFirst(s, i, f.i);
        NewlinesFirst(s, i, StopEnd(f));
      }
    }
  }

  lemma OpenIsNoTag(src: Source, depth: nat, i: nat, line: nat)
    ensures OpenAt(src.text, i) ==> ScanTag(src, depth, i, line).NoTag? && At(src.text, i) == '<'
  {
    hide ScanTag;
    if OpenAt(src.text, i) { NoTagInComment(src, depth, i, line); }
  }

  /** Without a comment that has no end, a stop has counted each line end once. */
  lemma StopCountsOnce(src: Source, depth: nat, i: nat, line: nat, bad: bool)
    requires i <= |src.text| && !FindStop(src, depth, i, line, bad).bad
    ensures var f := FindStop(src, depth, i, line, bad); f.line == line + Newlines(src.text, i, StopEnd(f))
  {
    hide Newlines, Recount, FindStop;
    StopLines(src, depth, i, line, bad);
    NothingOpen(src, depth, i, line, bad);
  }

  lemma {:induction false} NothingOpen(src: Source, depth: nat, i: nat, line: nat, bad: bool)
    requires i <= |src.text| && !FindStop(src, depth, i, line, bad).bad
    ensures Recount(src.text, i, FindStop(src, depth, i, line, bad).i) == 0
    decreases |src.text| - i
  {
    var s := src.text;
    hide ScanTag, ScanComment, Newlines, OpenAt;
    if i < |s| {
      var line1 := if s[i] == '\n' then line + 1 else line;
      CommentTried(s, i, line1);
      var c := ScanComment(s, i, line1);
      if c.Unterminated? {
        OpenIsNoTag(src, depth, i, c.line);
        StaysBad(src, depth, i + 1, c.line);
      } else if FindStop(src, depth, i, line, bad).i > i {
        NotOpen(s, i, c);
        NothingOpen(src, depth, i + 1, line1, bad);
      }
    }
  }

  lemma StaysBad(src: Source, depth: nat, i: nat, line: nat)
    requires i <= |src.text|
    ensures FindStop(src, depth, i, line, true).bad
  {
  }

  lemma NotOpen(s: CString, i: nat, c: CommentScan)
    requires i < |s| && (c.Unterminated? <==> OpenAt(s, i)) && !c.Unterminated?
    ensures !OpenAt(s, i)
  {
  }

  /** However many tags were tried and rejected on the way: as long as every comment that was
      met has an end, one call of scan() counts the line ends it moves over. */
  lemma {:induction false} ScanLines(src: Source, st: St)
    requires Within(src, st) && !Scan(src, st).unclosed
    ensures var r := Scan(src, st); r.line == st.line + Newlines(src.text, st.pos, r.pos)
    decreases |src.text| - st.pos
  {
    hide FindStop, Newlines;
    NewlinesNone(src.text, st.pos);
    if st.next.None? {
      if !FindStop(src, st.depth, st.pos, st.line, false).bad {
        StopCountsOnce(src, st.depth, st.pos, st.line, false);
      }
      var f := FindStop(src, st.depth, st.pos, st.line, false);
      if f.AtComment? && f.i == st.pos {
        var st1 := Moved(st, f.end, f.line, f.bad);
        ScanLines(src, st1);
        NewlinesSplit(src.text, st.pos, f.end, Scan(src, st).pos);
      }
    }
  }

  // ---------------------------------------------------------------- the line number of a whole parse

  predicate CountedRight(src: Source, st: St) {
    Within(src, st) && (!st.unclosed ==> st.line == 1 + Newlines(src.text, 0, st.pos))
  }

  predicate Ended(src: Source, st: St) { st.cur.None? ==> st.pos == |src.text| }

  lemma ScanCounts(src: Source, st: St)
    requires CountedRight(src, st)
    ensures CountedRight(src, Scan(src, st)) && Ended(src, Scan(src, st))
  {
    hide Scan, Newlines;
    var r := Scan(src, st);
    if !r.unclosed {
      ScanLines(src, st);
      NewlinesSplit(src.text, 0, st.pos, r.pos);
    }
  }

  lemma {:induction false} ItemsCount(src: Source, st: St, stop: Stops)
    requires CountedRight(src, st) && Ended(src, st)
    ensures CountedRight(src, ParseItems(src, st, stop).1) && Ended(src, ParseItems(src, st, stop).1)
    decreases Weight(src, st), 2
  {
    hide Scan, Newlines;
    if st.cur.Some? {
      var tag := st.cur.value;
      if Terminator(tag) && !Stopping(stop, tag) {
        ScanCounts(src, st.(error := true));
        ItemsCount(src, Scan(src, st.(error := true)), stop);
      } else if !Terminator(tag) {
        if tag.If? {
          IfCounts(src, st, stop);
        } else if tag.Loop? {
          LoopCounts(src, st, stop);
        } else {
          ScanCounts(src, st);
        }
        ItemsCount(src, ParseNode(src, st, stop).1, stop);
      }
    }
  }

  lemma ClosingCounts(src: Source, st: St, tag: Tag)
    requires CountedRight(src, st) && Ended(src, st)
    ensures CountedRight(src, Closing(src, st, tag)) && Ended(src, Closing(src, st, tag))
  {
    hide Scan, Newlines;
    ScanCounts(src, st);
  }

  lemma {:induction false} LoopCounts(src: Source, st: St, stop: Stops)
    requires CountedRight(src, st) && st.cur.Some?
    ensures CountedRight(src, ParseLoop(src, st, stop).1) && Ended(src, ParseLoop(src, st, stop).1)
    decreases Weight(src, st), 0
  {
    hide Scan, Newlines;
    var inner := st.(depth := st.depth + 1);
    ListCounts(src, inner, LoopStops(stop));
    var st1 := ParseList(src, inner, LoopStops(stop)).1;
    ClosingCounts(src, st1.(depth := st1.depth - 1), EndLoop);
  }

  lemma {:induction false} ListCounts(src: Source, st: St, stop: Stops)
    requires CountedRight(src, st)
    ensures CountedRight(src, ParseList(src, st, stop).1) && Ended(src, ParseList(src, st, stop).1)
    decreases Weight(src, Scan(src, st)), 3
  {
    hide Scan, Newlines;
    ScanCounts(src, st);
    ItemsCount(src, Scan(src, st), stop);
  }

  lemma {:induction false} IfCounts(src: Source, st: St, stop: Stops)
    requires CountedRight(src, st) && st.cur.Some?
    ensures CountedRight(src, ParseIf(src, st, stop).1) && Ended(src, ParseIf(src, st, stop).1)
    decreases Weight(src, st), 0
  {
    hide Scan, Newlines;
    ListCounts(src, st, IfStops(stop));
    var st1 := ParseList(src, st, IfStops(stop)).1;
    if st1.cur.Some? && st1.cur.value.Elsif? {
      IfCounts(src, st1, stop);
    } else if st1.cur == Some(Else) {
      ListCounts(src, st1, ElseStops(stop));
      ClosingCounts(src, ParseList(src, st1, ElseStops(stop)).1, EndIf);
    } else {
      ClosingCounts(src, st1, EndIf);
    }
  }

  /** With no unterminated comment, the line counter after parsing is 1 plus the line ends of
      the whole template, whatever errors the parser met. */
  lemma AllLinesCounted(src: Source)
    ensures var st := ParseTemplate(src).1;
            st.pos == |src.text| && (!st.unclosed ==> st.line == 1 + Newlines(src.text, 0, |src.text|))
  {
    hide Newlines, Scan;
    NewlinesNone(src.text, 0);
    ListCounts(src, Start(), NO_STOPS);
  }
}
