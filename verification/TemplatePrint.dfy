/** Writing a parse tree as template text, and reading it back. */
module TemplatePrint {
  import opened Prelude
  import opened TemplateScanner
  import opened TemplateParser
  import opened TemplateTrees
  import opened TemplateRoundTrip
  import opened TemplateStack
  import opened TemplateLocal
  import opened TemplateCover

  // ---------------------------------------------------------------- printing

  function Digits(n: nat): (v: string)
    ensures v != "" && forall i | 0 <= i < |v| :: IsDigit(v[i])
  {
    (if n < 10 then "" else Digits(n / 10)) + [('0' as int + n % 10) as char]
  }

  function Quote(v: string): char { if '"' in v then '\'' else '"' }

  function PrintAttr(word: string, v: Option<string>): string {
    if v.None? then "" else " " + word + "=" + [Quote(v.value)] + v.value + [Quote(v.value)]
  }

  function KindOf(tag: Tag): Kind
    requires !tag.Text?
  {
    match tag
    case Var(_, _, _) => KVar
    case If(_, _) => KIf
    case Elsif(_, _) => KElsif
    case Else => KElse
    case EndIf => KEndIf
    case Include(_) => KInclude
    case Loop(_) => KLoop
    case EndLoop => KEndLoop
    case Break(_) => KBreak
    case Continue(_) => KContinue
  }

  /** The attributes of a tag; positions are not meant. */
  function AttrsOf(tag: Tag): Attrs {
    match tag
    case Var(name, dflt, fmt) => Attrs(0, 0, Some(name), fmt, dflt)
    case If(name, testval) => Attrs(0, 0, Some(name), None, testval)
    case Elsif(name, testval) => Attrs(0, 0, Some(name), None, testval)
    case Include(filename) => Attrs(0, 0, Some(filename), None, None)
    case Loop(name) => Attrs(0, 0, Some(name), None, None)
    case Break(level) => Attrs(0, 0, None, None, Some(Digits(level)))
    case Continue(level) => Attrs(0, 0, None, None, Some(Digits(level)))
    case _ => Attrs(0, 0, None, None, None)
  }

  function PrintValue(k: Kind, a: Attrs): string { PrintAttr(ValueWord(k), a.value) + ">" }

  function PrintFmt(k: Kind, a: Attrs): string { PrintAttr("fmt", a.fmt) + PrintValue(k, a) }

  function PrintName(k: Kind, a: Attrs): string { PrintAttr("name", a.name) + PrintFmt(k, a) }

  function PrintTag(tag: Tag): string {
    if tag.Text? then tag.text else "<" + Word(KindOf(tag)) + PrintName(KindOf(tag), AttrsOf(tag))
  }

  predicate CText(text: string) { forall i | 0 <= i < |text| :: text[i] != '\0' }

  /** No quoted value that is opened in the text runs out of it. */
  predicate Shut(text: string) {
    CText(text) && forall j | 0 <= j < |text| && NameAt(text, j).Some? :: Closed(text, j, |text|)
  }

  /** The first tag is a text that must be kept apart from what is behind it. */
  predicate Parted(tags: seq<Tag>) {
    |tags| >= 2 && tags[0].Text? && (tags[1].Text? || !Shut(tags[0].text))
  }

  /** The first tag is a text, and a tag may follow it directly. */
  predicate Joining(tags: seq<Tag>) {
    |tags| >= 2 && tags[0].Text? && !tags[1].Text? && Shut(tags[0].text)
  }

  /** A comment keeps texts apart; its line end keeps an open quote from what follows. */
  function Separator(tags: seq<Tag>): string { if Parted(tags) then "<*\n*>" else "" }

  function PrintTags(tags: seq<Tag>): string {
    if tags == [] then "" else PrintTag(tags[0]) + Separator(tags) + PrintTags(tags[1..])
  }

  // ---------------------------------------------------------------- what can be printed

  /** A text in which scan(), if it saw nothing else, would find no comment and no tag. */
  predicate TextOk(src: Source, depth: nat, text: string) {
    && text != "" && CText(text) && !HoldsComment(text)
    && forall j | 0 <= j < |text| :: ScanTag(src.(text := text), depth, j, 0).NoTag?
  }

  predicate TagOk(src: Source, depth: nat, tag: Tag) {
    Legal(src, depth, tag) && (tag.Text? ==> TextOk(src, depth, tag.text))
  }

  predicate TagsOk(src: Source, depth: nat, tags: seq<Tag>)
    decreases |tags|
  {
    tags != [] ==> TagOk(src, depth, tags[0]) && TagsOk(src, DepthAfter(depth, tags[0]), tags[1..])
  }

  // ---------------------------------------------------------------- scanning printed text

  predicate Here(s: CString, p: nat, x: string) {
    p + |x| <= |s| && forall i | 0 <= i < |x| :: s[p + i] == x[i]
  }

  lemma HereParts(s: CString, p: nat, x: string, y: string)
    requires Here(s, p, x + y)
    ensures Here(s, p, x) && Here(s, p + |x|, y)
  {
    var z := x + y;
    forall i | 0 <= i < |x| ensures s[p + i] == x[i] { assert z[i] == x[i]; }
    forall i | 0 <= i < |y| ensures s[p + |x| + i] == y[i] { assert z[|x| + i] == y[i]; }
  }

  lemma {:induction false} QuotedEndAt(s: CString, p: nat, n: nat, quote: char)
    requires p + n < |s| && s[p + n] == quote
    requires forall i | p <= i < p + n :: s[i] != quote && s[i] != '\n'
    ensures QuotedEnd(s, p, quote) == p + n
    decreases n
  {
    if n > 0 { QuotedEndAt(s, p + 1, n - 1, quote); }
  }

  lemma ValueScanned(s: CString, p: nat, v: string, tail: string)
    requires ValueOk(v) && Here(s, p, [Quote(v)] + v + [Quote(v)] + tail)
    ensures var e := p + |v| + 1;
            && At(s, p) == Quote(v) && QuotedEnd(s, p + 1, Quote(v)) == e && At(s, e) == Quote(v)
            && s[p + 1..e] == v && Here(s, e + 1, tail)
  {
    var q := Quote(v);
    var x := [q] + v + [q];
    HereParts(s, p, x, tail);
    HereParts(s, p, [q] + v, [q]);
    HereParts(s, p, [q], v);
    assert s[p + 0] == [q][0];
    assert s[p + 1 + |v| + 0] == [q][0];
    HereSlice(s, p + 1, v);
    forall i | p + 1 <= i < p + 1 + |v| ensures s[i] != q && s[i] != '\n' {
      assert v[i - p - 1] in v && s[p + 1 + (i - p - 1)] == v[i - p - 1];
    }
    QuotedEndAt(s, p + 1, |v|, q);
  }

  lemma HereSlice(s: CString, p: nat, x: string)
    requires Here(s, p, x)
    ensures s[p..p + |x|] == x
  {
  }

  lemma WordScanned(s: CString, p: nat, word: string, tail: string)
    requires word != "" && Here(s, p, " " + (word + ("=" + tail)))
    ensures At(s, p) == ' ' && Matches(s, p + 1, word) && s[p + 1] == word[0]
    ensures At(s, p + 1 + |word|) == '=' && Here(s, p + 2 + |word|, tail)
  {
    HereParts(s, p, " ", word + ("=" + tail));
    HereParts(s, p + 1, word, "=" + tail);
    HereParts(s, p + 1 + |word|, "=", tail);
    assert s[p + 0] == " "[0];
    assert s[p + 1 + 0] == word[0];
    assert s[p + 1 + |word| + 0] == "="[0];
  }

  /** A printed attribute is found where it starts. */
  lemma AttrScanned(s: CString, p: nat, line: nat, word: string, v: string, tail: string)
    requires ValueOk(v) && word != "" && Here(s, p, PrintAttr(word, Some(v)) + tail)
    requires !IsBlank(word[0])
    ensures ScanSpaces(s, p, line) == Cursor(p + 1, line)
    ensures var e := p + |PrintAttr(word, Some(v))|;
            && ScanAttr(s, word, p + 1, line) == Hit(v, e, line)
            && Here(s, e, tail) && e > p + 1 && s[p + 1] == word[0]
  {
    hide Here, ScanSpaces, ScanAttr, Matches, ValueOk, QuotedEnd, PrintAttr, Quote;
    var quoted := [Quote(v)] + v + [Quote(v)] + tail;
    AttrText(word, v, tail);
    WordScanned(s, p, word, quoted);
    ValueScanned(s, p + 2 + |word|, v, tail);
    OneSpace(s, p, line);
    AttrHit(s, p + 1, line, word, v, p + 3 + |word| + |v|);
  }

  lemma AttrText(word: string, v: string, tail: string)
    ensures PrintAttr(word, Some(v)) + tail == " " + (word + ("=" + ([Quote(v)] + v + [Quote(v)] + tail)))
    ensures |PrintAttr(word, Some(v))| == 4 + |word| + |v|
  {
    hide Quote;
    var q, x := [Quote(v)], " " + word + "=";
    assert PrintAttr(word, Some(v)) == x + q + v + q;
    Regroup(x + q + v, q, tail);
    FourParts(x, q, v, q + tail);
    Regroup(q + v, q, tail);
    Regroup(q, v, q + tail);
    FourParts(" ", word, "=", q + v + q + tail);
  }

  lemma OneSpace(s: CString, p: nat, line: nat)
    requires p + 1 < |s| && s[p] == ' ' && !IsBlank(s[p + 1])
    ensures ScanSpaces(s, p, line) == Cursor(p + 1, line)
  {
    assert ScanSpaces(s, p + 1, line) == Cursor(p + 1, line);
  }

  /** The parts of an attribute make the attribute. */
  lemma AttrHit(s: CString, p: nat, line: nat, word: string, v: string, e: nat)
    requires word != "" && Matches(s, p, word) && p + |word| < e < |s| && s[p + |word|] == '='
    requires At(s, p + |word| + 1) == Quote(v) == s[e] && QuotedEnd(s, p + |word| + 2, Quote(v)) == e
    requires p + |word| + 2 <= e && s[p + |word| + 2..e] == v
    ensures ScanAttr(s, word, p, line) == Hit(v, e + 1, line)
  {
    hide QuotedEnd, BareEnd, Matches;
    assert ScanSpaces(s, p + |word|, line) == Cursor(p + |word|, line);
    assert ScanSpaces(s, p + |word| + 1, line) == Cursor(p + |word| + 1, line);
  }

  lemma NotHere(s: CString, word: string, p: nat, line: nat)
    requires p < |s| && word != "" && Lower(s[p]) != Lower(word[0])
    ensures ScanAttr(s, word, p, line) == Miss(line)
  {
    assert s[p + 0] == s[p];
  }

  /** Attributes of a printed tag fit its kind. */
  predicate Fitting(k: Kind, a: Attrs) {
    && (HasName(k) <==> a.name.Some?)
    && (a.fmt.Some? ==> k == KVar)
    && (a.value.Some? ==> k in {KVar, KIf, KElsif, KBreak, KContinue})
    && OptionOk(a.name) && OptionOk(a.fmt) && OptionOk(a.value)
  }

  lemma ClosingMark(s: CString, p: nat, line: nat, tail: string)
    requires Here(s, p, ">" + tail)
    ensures p < |s| && s[p] == '>' && ScanSpaces(s, p, line) == Cursor(p, line)
  {
    HereParts(s, p, ">", tail);
    assert s[p + 0] == ">"[0];
  }

  lemma NoMoreAttrs(s: CString, k: Kind, got: Attrs)
    requires got.p < |s| && s[got.p] == '>'
    ensures ScanAttrs(s, k, got) == got
  {
    NotHere(s, "name", got.p, got.line);
    NotHere(s, "fmt", got.p, got.line);
    NotHere(s, ValueWord(k), got.p, got.line);
  }

  lemma NoAttr(word: string)
    ensures PrintAttr(word, None) == ""
  {
  }

  /** From before the last attribute, "default", "value" or "level", on. */
  lemma ValueAttrs(s: CString, k: Kind, a: Attrs, got: Attrs, p: nat, tail: string)
    requires Fitting(k, a) && Here(s, p, PrintValue(k, a) + tail)
    requires got.p == ScanSpaces(s, p, got.line).p && got.value.None? && (HasName(k) ==> got.name.Some?)
    ensures var e := p + |PrintValue(k, a)| - 1;
            ScanAttrs(s, k, got) == got.(p := e, value := a.value) && Here(s, e, ">" + tail)
  {
    hide ScanAttr, ScanSpaces, Here, PrintAttr, ValueOk;
    assert PrintValue(k, a) + tail == PrintAttr(ValueWord(k), a.value) + (">" + tail);
    if a.value.Some? {
      AttrScanned(s, p, got.line, ValueWord(k), a.value.value, ">" + tail);
      NotHere(s, "fmt", got.p, got.line);
      var e := p + |PrintAttr(ValueWord(k), a.value)|;
      ClosingMark(s, e, got.line, tail);
      NoMoreAttrs(s, k, got.(p := e, value := a.value));
    } else {
      NoAttr(ValueWord(k));
      assert PrintAttr(ValueWord(k), a.value) + (">" + tail) == ">" + tail;
      ClosingMark(s, p, got.line, tail);
      NoMoreAttrs(s, k, got);
    }
  }

  lemma FmtAttrs(s: CString, k: Kind, a: Attrs, got: Attrs, p: nat, tail: string)
    requires Fitting(k, a) && Here(s, p, PrintFmt(k, a) + tail)
    requires got.p == ScanSpaces(s, p, got.line).p && got.value.None? && got.fmt.None?
    requires HasName(k) ==> got.name.Some?
    ensures var e := p + |PrintFmt(k, a)| - 1;
            ScanAttrs(s, k, got) == got.(p := e, fmt := a.fmt, value := a.value) && Here(s, e, ">" + tail)
  {
    hide ScanAttr, ScanSpaces, Here, PrintAttr, PrintValue, ValueOk;
    var rest := PrintValue(k, a) + tail;
    assert PrintFmt(k, a) + tail == PrintAttr("fmt", a.fmt) + rest;
    if a.fmt.Some? {
      AttrScanned(s, p, got.line, "fmt", a.fmt.value, rest);
      var e := p + |PrintAttr("fmt", a.fmt)|;
      SpacesKeepLine(s, k, a, e, got.line, tail);
      ValueAttrs(s, k, a, got.(p := ScanSpaces(s, e, got.line).p, fmt := a.fmt), e, tail);
    } else {
      NoAttr("fmt");
      assert PrintAttr("fmt", a.fmt) + rest == rest;
      ValueAttrs(s, k, a, got, p, tail);
    }
  }

  lemma SpacesKeepLine(s: CString, k: Kind, a: Attrs, p: nat, line: nat, tail: string)
    requires Fitting(k, a) && Here(s, p, PrintValue(k, a) + tail)
    ensures ScanSpaces(s, p, line).line == line
  {
    if a.value.Some? {
      assert PrintValue(k, a) + tail == PrintAttr(ValueWord(k), a.value) + (">" + tail);
      AttrScanned(s, p, line, ValueWord(k), a.value.value, ">" + tail);
    } else {
      assert PrintValue(k, a) + tail == ">" + tail;
      ClosingMark(s, p, line, tail);
    }
  }

  lemma SpacesKeepLineFmt(s: CString, k: Kind, a: Attrs, p: nat, line: nat, tail: string)
    requires Fitting(k, a) && Here(s, p, PrintFmt(k, a) + tail)
    ensures ScanSpaces(s, p, line).line == line
  {
    var rest := PrintValue(k, a) + tail;
    assert PrintFmt(k, a) + tail == PrintAttr("fmt", a.fmt) + rest;
    if a.fmt.Some? {
      AttrScanned(s, p, line, "fmt", a.fmt.value, rest);
    } else {
      assert PrintAttr("fmt", a.fmt) + rest == rest;
      SpacesKeepLine(s, k, a, p, line, tail);
    }
  }

  lemma HereWithin(s: CString, p: nat, x: string)
    requires Here(s, p, x)
    ensures p + |x| <= |s|
  {
  }

  lemma BareTag(s: CString, k: Kind, a: Attrs, q: nat, line: nat, tail: string)
    requires Fitting(k, a) && !HasName(k) && Here(s, q, PrintFmt(k, a) + tail) && ScanSpaces(s, q, line).p == q
    ensures a.value.None? && a.fmt.None? && PrintFmt(k, a) == ">"
  {
    if a.fmt.None? && a.value.Some? {
      assert PrintFmt(k, a) + tail == PrintAttr(ValueWord(k), a.value) + (">" + tail);
      AttrScanned(s, q, line, ValueWord(k), a.value.value, ">" + tail);
    }
  }

  /** All attributes of a printed tag, from the end of its name on. */
  lemma AttrsScanned(s: CString, k: Kind, a: Attrs, q: nat, line: nat, tail: string)
    requires Fitting(k, a) && Here(s, q, PrintName(k, a) + tail)
    ensures var e := q + |PrintName(k, a)| - 1;
            && q <= e <= |s| && AttrsAfterName(s, k, q, line) == Some(Attrs(e, line, a.name, a.fmt, a.value))
            && Here(s, e, ">" + tail)
  {
    hide ScanAttr, ScanSpaces, Here, PrintAttr, PrintFmt, ValueOk;
    var rest := PrintFmt(k, a) + tail;
    HereWithin(s, q, PrintName(k, a) + tail);
    assert PrintName(k, a) + tail == PrintAttr("name", a.name) + rest;
    var d := ScanSpaces(s, q, line);
    var start := Attrs(d.p, d.line, None, None, None);
    if HasName(k) {
      AttrScanned(s, q, line, "name", a.name.value, rest);
      var e := q + |PrintAttr("name", a.name)|;
      HereWithin(s, e, rest);
      SpacesKeepLineFmt(s, k, a, e, line, tail);
      FmtAttrs(s, k, a, start.(p := ScanSpaces(s, e, line).p, name := a.name), e, tail);
    } else {
      NoAttr("name");
      assert PrintAttr("name", a.name) + rest == rest;
      SpacesKeepLineFmt(s, k, a, q, line, tail);
      FmtAttrs(s, k, a, start, q, tail);
      if d.p == q {
        BareTag(s, k, a, q, line, tail);
      }
    }
  }

  // ---------------------------------------------------------------- whole tags

  lemma WordsDiffer(k: Kind, j: Kind)
    requires k != j
    ensures exists i :: 0 <= i < |Word(k)| && i < |Word(j)| && Lower(Word(k)[i]) != Lower(Word(j)[i])
  {
    var i := if Word(k)[0] != Word(j)[0] then 0
             else if Word(k)[5] != Word(j)[5] then 5
             else if Word(k)[6] != Word(j)[6] then 6
             else 8;
    assert Lower(Word(k)[i]) != Lower(Word(j)[i]);
  }

  lemma OnlyMatch(s: CString, p: nat, k: Kind, j: Kind)
    requires Here(s, p, Word(k))
    ensures Matches(s, p, Word(j)) <==> k == j
  {
    if k != j {
      WordsDiffer(k, j);
      var i :| 0 <= i < |Word(k)| && i < |Word(j)| && Lower(Word(k)[i]) != Lower(Word(j)[i]);
      assert s[p + i] == Word(k)[i];
    }
  }

  lemma KeywordScanned(s: CString, p: nat, k: Kind)
    requires Here(s, p, Word(k))
    ensures Keyword(s, p) == Some(k)
  {
    hide Word, Matches, Here;
    OnlyMatch(s, p, k, KVar);
    OnlyMatch(s, p, k, KInclude);
    OnlyMatch(s, p, k, KIf);
    OnlyMatch(s, p, k, KElsif);
    OnlyMatch(s, p, k, KElse);
    OnlyMatch(s, p, k, KEndIf);
    OnlyMatch(s, p, k, KLoop);
    OnlyMatch(s, p, k, KEndLoop);
    OnlyMatch(s, p, k, KBreak);
    OnlyMatch(s, p, k, KContinue);
  }

  lemma {:induction false} DigitsAppended(v: string, d: char, acc: nat)
    requires IsDigit(d) && forall i | 0 <= i < |v| :: IsDigit(v[i])
    ensures AtoiDigits(v + [d], acc) == 10 * AtoiDigits(v, acc) + (d - '0') as nat
    decreases |v|
  {
    if v == "" {
      assert (v + [d])[1..] == "";
    } else {
      assert (v + [d])[1..] == v[1..] + [d];
      DigitsAppended(v[1..], d, 10 * acc + (v[0] - '0') as nat);
    }
  }

  lemma {:induction false} DigitsRead(n: nat)
    ensures AtoiDigits(Digits(n), 0) == n
  {
    var d := ('0' as int + n % 10) as char;
    if n < 10 {
      DigitsAppended("", d, 0);
    } else {
      DigitsRead(n / 10);
      DigitsAppended(Digits(n / 10), d, 0);
    }
  }

  lemma LevelRead(n: nat)
    ensures Atoi(Digits(n)) == n && ValueOk(Digits(n))
  {
    DigitsRead(n);
    assert IsDigit(Digits(n)[0]);
    assert '"' !in Digits(n);
  }

  lemma AttrsFit(src: Source, depth: nat, tag: Tag)
    requires !tag.Text? && TagOk(src, depth, tag)
    ensures Fitting(KindOf(tag), AttrsOf(tag))
    ensures forall p, line :: BuildTag(src, depth, KindOf(tag), AttrsOf(tag).(p := p, line := line)) == Some(tag)
  {
    hide Digits;
    if tag.Break? || tag.Continue? { LevelRead(tag.level); }
  }

  /** Scanning a printed tag gives the tag, and ends right behind it on the same line. */
  lemma TagScanned(src: Source, depth: nat, tag: Tag, p: nat, line: nat, tail: string)
    requires !tag.Text? && TagOk(src, depth, tag) && Here(src.text, p, PrintTag(tag) + tail)
    ensures ScanTag(src, depth, p, line) == Found(tag, p + |PrintTag(tag)|, line)
    ensures At(src.text, p) == '<' && At(src.text, p + 1) != '*'
  {
    hide AttrsAfterName, Keyword, BuildTag, TagOk, PrintName, KindOf, AttrsOf, ScanTag, Here, Word, PrintTag;
    var s := src.text;
    var k, a := KindOf(tag), AttrsOf(tag);
    var rest := PrintName(k, a) + tail;
    TagText(tag, tail);
    HereParts(s, p, "<", Word(k) + rest);
    HereParts(s, p + 1, Word(k), rest);
    TagStart(s, p, k);
    KeywordScanned(s, p + 1, k);
    AttrsFit(src, depth, tag);
    AttrsScanned(s, k, a, p + 1 + |Word(k)|, line, tail);
    var e := p + 1 + |Word(k)| + |PrintName(k, a)| - 1;
    ClosingMark(s, e, line, tail);
    TagFound(src, depth, p, line, k, a.(p := e, line := line), tag);
  }

  lemma TagText(tag: Tag, tail: string)
    requires !tag.Text?
    ensures var k, a := KindOf(tag), AttrsOf(tag);
            && PrintTag(tag) + tail == "<" + (Word(k) + (PrintName(k, a) + tail))
            && |PrintTag(tag)| == 1 + |Word(k)| + |PrintName(k, a)| && PrintName(k, a) != ""
  {
    hide KindOf, AttrsOf, Word, PrintName;
    var k, a := KindOf(tag), AttrsOf(tag);
    NameIsSome(k, a);
    FourParts("<", Word(k), PrintName(k, a), tail);
  }

  lemma NameIsSome(k: Kind, a: Attrs)
    ensures PrintName(k, a) != ""
  {
    hide PrintAttr;
  }

  lemma FourParts(a: string, b: string, c: string, d: string)
    ensures a + b + c + d == a + (b + (c + d)) && |a + b + c| == |a| + |b| + |c|
  {
    Regroup(a + b, c, d);
    Regroup(a, b, c + d);
  }

  lemma TagStart(s: CString, p: nat, k: Kind)
    requires Here(s, p, "<") && Here(s, p + 1, Word(k))
    ensures At(s, p) == '<' && (At(s, p + 1) == 'T' || At(s, p + 1) == '/')
  {
    assert s[p + 0] == "<"[0] && s[p + 1 + 0] == Word(k)[0];
  }

  /** The parts of a tag make the tag. */
  lemma TagFound(src: Source, depth: nat, p: nat, line: nat, k: Kind, a: Attrs, tag: Tag)
    requires At(src.text, p) == '<' && (At(src.text, p + 1) == 'T' || At(src.text, p + 1) == '/')
    requires Keyword(src.text, p + 1) == Some(k) && p + 1 + |Word(k)| <= |src.text|
    requires AttrsAfterName(src.text, k, p + 1 + |Word(k)|, line) == Some(a)
    requires a.p < |src.text| && src.text[a.p] == '>' && a.line == line && BuildTag(src, depth, k, a) == Some(tag)
    ensures ScanTag(src, depth, p, line) == Found(tag, a.p + 1, line)
  {
    hide AttrsAfterName, Keyword, BuildTag, Word, Container;
  }

  // ---------------------------------------------------------------- whole templates

  function LinesIn(text: string, j: nat): nat
    requires j <= |text|
    decreases |text| - j
  {
    if j == |text| then 0 else (if text[j] == '\n' then 1 else 0) + LinesIn(text, j + 1)
  }

  lemma TextWindow(s: CString, i: nat, text: CString, j: nat)
    requires Here(s, i, text) && j <= |text| && Wall(s, i + |text|)
    ensures Window(text, j, s, i + j, |text| - j)
  {
    var a, b := text[j..j + (|text| - j)], s[i + j..i + j + (|text| - j)];
    forall k | 0 <= k < |a| ensures a[k] == b[k] { assert s[i + (j + k)] == text[j + k]; }
  }

  /** Nothing stops the scanner inside a printed text. */
  lemma NoStopHere(src: Source, depth: nat, i: nat, line: nat, text: string, j: nat)
    requires Here(src.text, i, text) && TextOk(src, depth, text) && j < |text| && text[j] == '<'
    requires Wall(src.text, i + |text|) && (Shut(text) || Dead(src.text, i + |text|))
    ensures ScanTag(src, depth, i + j, line).NoTag? && ScanComment(src.text, i + j, line).NoComment?
  {
    hide ScanTag, Window, Dead, Closed, NameAt;
    TextWindow(src.text, i, text, j);
    DeadAtEnd(text);
    TagSame(src.(text := text), j, src, i + j, |text| - j, depth, 0, line);
    if j + 1 < |text| { assert src.text[i + (j + 1)] == text[j + 1] != '*'; }
  }

  lemma {:induction false} TextPassed(src: Source, depth: nat, i: nat, line: nat, text: string, j: nat)
    requires Here(src.text, i, text) && TextOk(src, depth, text) && j <= |text|
    requires Wall(src.text, i + |text|) && (Shut(text) || Dead(src.text, i + |text|))
    ensures FindStop(src, depth, i + j, line, false)
         == FindStop(src, depth, i + |text|, line + LinesIn(text, j), false)
    decreases |text| - j
  {
    hide ScanComment, ScanTag, TextOk, Wall, Dead, Shut;
    if j < |text| {
      assert src.text[i + j] == text[j];
      var line1 := if text[j] == '\n' then line + 1 else line;
      if text[j] == '<' { NoStopHere(src, depth, i, line1, text, j); }
      TextPassed(src, depth, i, line1, text, j + 1);
    }
  }

  lemma SeparatorScanned(src: Source, depth: nat, p: nat, line: nat, tail: string)
    requires Here(src.text, p, "<*\n*>" + tail)
    ensures FindStop(src, depth, p, line, false) == AtComment(p, p + 5, line + 1, false)
    ensures Wall(src.text, p) && Dead(src.text, p)
  {
    hide ScanTag;
    var s := src.text;
    HereParts(s, p, "<*\n*>", tail);
    var x := "<*\n*>";
    assert s[p + 0] == x[0] && s[p + 1] == x[1] && s[p + 2] == x[2] && s[p + 3] == x[3] && s[p + 4] == x[4];
    assert FindCommentEnd(s, p + 3, line + 1) == Comment(p + 5, line + 1);
    assert FindCommentEnd(s, p + 2, line) == Comment(p + 5, line + 1);
    forall quote | IsQuote(quote) ensures QuotedEnd(s, p, quote) == p + 2 {
      assert QuotedEnd(s, p + 2, quote) == p + 2;
      assert QuotedEnd(s, p + 1, quote) == p + 2;
    }
  }

  lemma TagStops(src: Source, depth: nat, tag: Tag, p: nat, line: nat, tail: string)
    requires !tag.Text? && TagOk(src, depth, tag) && Here(src.text, p, PrintTag(tag) + tail)
    ensures FindStop(src, depth, p, line, false) == AtTag(p, tag, p + |PrintTag(tag)|, line, false)
    ensures Wall(src.text, p)
  {
    hide ScanTag, PrintTag, TagOk;
    TagScanned(src, depth, tag, p, line, tail);
    assert At(src.text, p) == '<';
  }

  /** The rest of the template text is x. */
  predicate Remaining(src: Source, st: St, x: string) {
    Within(src, st) && src.text[st.pos..] == x && st.next.None? && !st.error
  }

  lemma RemainingHere(src: Source, st: St, x: string)
    requires Remaining(src, st, x)
    ensures Here(src.text, st.pos, x) && st.pos + |x| == |src.text|
  {
    forall i | 0 <= i < |x| ensures src.text[st.pos + i] == x[i] { assert src.text[st.pos..][i] == x[i]; }
  }

  /** What one call of scan() does, by what ends the text. */
  lemma ScanByStop(src: Source, st: St)
    requires Within(src, st) && st.next.None?
    ensures var f := FindStop(src, st.depth, st.pos, st.line, false);
            var r := Scan(src, st);
            match f
            case AtEnd(i, line, bad) =>
              r.pos == i && r.error == (st.error || bad) && r.next.None? && r.depth == st.depth
              && r.cur == if i > st.pos then Some(Text(src.text[st.pos..i])) else None
            case AtComment(i, end, line, bad) =>
              i > st.pos ==> r.pos == end && r.error == (st.error || bad) && r.next.None? && r.depth == st.depth
                             && r.cur == Some(Text(src.text[st.pos..i]))
            case AtTag(i, tag, end, line, bad) =>
              r.pos == end && r.error == (st.error || bad) && r.depth == st.depth
              && if i > st.pos then r.cur == Some(Text(src.text[st.pos..i])) && r.next == Some(tag)
                 else r.cur == Some(tag) && r.next.None?
  {
    hide FindStop;
  }

  predicate AfterFirst(src: Source, st: St, r: St, tags: seq<Tag>) {
    && Within(src, r) && !r.error && r.depth == st.depth
    && (tags == [] ==> r.cur.None?)
    && (tags != [] ==> r.cur == Some(tags[0]))
    && (if Joining(tags)
        then r.next == Some(tags[1]) && src.text[r.pos..] == PrintTags(tags[2..])
        else r.next.None? && (tags != [] ==> src.text[r.pos..] == PrintTags(tags[1..])))
  }

  lemma Behind(src: Source, st: St, x: string, y: string)
    requires Remaining(src, st, x + y)
    ensures Within(src, st.(pos := st.pos + |x|)) && src.text[st.pos + |x|..] == y
    ensures src.text[st.pos..st.pos + |x|] == x
  {
    var rest := src.text[st.pos..];
    assert rest[|x|..] == y && rest[..|x|] == x;
  }

  /** One call of scan() on printed text: an end, a tag, or a text with what follows it. */
  lemma ScanPrinted(src: Source, st: St, tags: seq<Tag>)
    requires Remaining(src, st, PrintTags(tags)) && TagsOk(src, st.depth, tags)
    ensures AfterFirst(src, st, Scan(src, st), tags)
  {
    hide Scan, FindStop, TagOk, PrintTag;
    RemainingHere(src, st, PrintTags(tags));
    ScanByStop(src, st);
    if tags == [] {
      assert FindStop(src, st.depth, st.pos, st.line, false) == AtEnd(st.pos, st.line, false) by {
        StopAtEnd(src, st.depth, st.line);
      }
    } else if tags[0].Text? {
      ScanText(src, st, tags);
    } else {
      var tail := PrintTags(tags[1..]);
      assert Separator(tags) == "";
      assert PrintTags(tags) == PrintTag(tags[0]) + tail;
      TagStops(src, st.depth, tags[0], st.pos, st.line, tail);
      Behind(src, st, PrintTag(tags[0]), tail);
    }
  }

  lemma StopAtEnd(src: Source, depth: nat, line: nat)
    ensures FindStop(src, depth, |src.text|, line, false) == AtEnd(|src.text|, line, false)
  {
  }

  lemma FirstOk(src: Source, depth: nat, tags: seq<Tag>)
    requires tags != [] && tags[0].Text? && TagsOk(src, depth, tags)
    ensures TextOk(src, depth, tags[0].text)
    ensures |tags| >= 2 ==> TagOk(src, depth, tags[1])
  {
    assert DepthAfter(depth, tags[0]) == depth;
  }

  lemma PrintedFirst(tags: seq<Tag>)
    requires tags != []
    ensures PrintTags(tags) == PrintTag(tags[0]) + Separator(tags) + PrintTags(tags[1..])
  {
  }

  lemma Regroup(t: string, m: string, x: string)
    ensures t + m + x == t + (m + x) && t + "" + x == t + x
  {
  }

  lemma TextFirst(tags: seq<Tag>)
    requires tags != [] && tags[0].Text?
    ensures PrintTag(tags[0]) == tags[0].text
    ensures |tags| == 1 ==> Separator(tags) == "" && tags[1..] == []
    ensures |tags| >= 2 ==> (Parted(tags) || Joining(tags)) && !(Parted(tags) && Joining(tags))
    ensures |tags| >= 2 ==> Separator(tags) == (if Parted(tags) then "<*\n*>" else "")
    ensures |tags| >= 2 ==> tags[1..][0] == tags[1] && tags[1..][1..] == tags[2..]
    ensures Joining(tags) ==> Separator(tags[1..]) == ""
  {
    hide Shut;
  }

  /** What follows a printed text: nothing, a comment, or a tag. */
  lemma TextThen(tags: seq<Tag>) returns (mark: string, more: string)
    requires tags != [] && tags[0].Text?
    ensures PrintTags(tags) == tags[0].text + (mark + more) && PrintTags(tags) == (tags[0].text + mark) + more
    ensures |tags| == 1 ==> mark == "" && more == ""
    ensures Parted(tags) ==> mark == "<*\n*>"
    ensures Joining(tags) ==> mark == PrintTag(tags[1]) && more == PrintTags(tags[2..])
    ensures |tags| == 1 || Parted(tags) ==> more == PrintTags(tags[1..])
  {
    hide PrintTags, PrintTag, Separator, Parted, Joining;
    PrintedFirst(tags);
    TextFirst(tags);
    if |tags| == 1 {
      NothingPrinted();
      OneOnly(tags);
      mark, more := "", "";
    } else if Parted(tags) {
      mark, more := "<*\n*>", PrintTags(tags[1..]);
    } else {
      PrintedFirst(tags[1..]);
      mark, more := PrintTag(tags[1]), PrintTags(tags[2..]);
      Regroup(PrintTag(tags[1]), "", more);
      Regroup(tags[0].text, "", PrintTags(tags[1..]));
    }
    Regroup(tags[0].text, mark, more);
  }

  lemma OneOnly(tags: seq<Tag>)
    requires |tags| == 1
    ensures !Parted(tags) && !Joining(tags)
  {
  }

  lemma NothingPrinted()
    ensures PrintTags([]) == ""
  {
  }

  lemma StopAfterText(src: Source, depth: nat, tags: seq<Tag>, p: nat, line: nat, mark: string, more: string)
    requires tags != [] && tags[0].Text? && TagsOk(src, depth, tags)
    requires Here(src.text, p, tags[0].text + (mark + more))
    requires |tags| == 1 ==> mark == "" && p + |tags[0].text| == |src.text|
    requires |tags| >= 2 ==> mark == if Parted(tags) then "<*\n*>" else PrintTag(tags[1])
    ensures var i := p + |tags[0].text|;
            var f := FindStop(src, depth, p, line, false);
            && i > p && f.i == i && !f.bad
            && (|tags| == 1 ==> f.AtEnd?)
            && (Parted(tags) ==> f.AtComment? && f.end == i + |mark|)
            && (Joining(tags) ==> f.AtTag? && f.tag == tags[1] && f.end == i + |mark|)
  {
    hide FindStop, TagOk, PrintTag, Here, Shut, Dead, TextOk;
    var text := tags[0].text;
    FirstOk(src, depth, tags);
    HereParts(src.text, p, text, mark + more);
    var i, line1 := p + |text|, line + LinesIn(text, 0);
    if |tags| == 1 {
      StopAtEnd(src, depth, line1);
      DeadAtEnd(src.text);
    } else if Parted(tags) {
      SeparatorScanned(src, depth, i, line1, more);
    } else {
      TagStops(src, depth, tags[1], i, line1, more);
    }
    TextNotEmpty(src, depth, text);
    TextPassed(src, depth, p, line, text, 0);
  }

  lemma TextNotEmpty(src: Source, depth: nat, text: string)
    requires TextOk(src, depth, text)
    ensures text != ""
  {
  }

  lemma ScanText(src: Source, st: St, tags: seq<Tag>)
    requires tags != [] && tags[0].Text?
    requires Remaining(src, st, PrintTags(tags)) && TagsOk(src, st.depth, tags)
    ensures AfterFirst(src, st, Scan(src, st), tags)
  {
    hide Scan, FindStop, TagsOk, PrintTag, PrintTags, Here, Parted, Joining, Separator;
    TextFirst(tags);
    if |tags| == 1 { OneOnly(tags); }
    var mark, more := TextThen(tags);
    RemainingHere(src, st, PrintTags(tags));
    StopAfterText(src, st.depth, tags, st.pos, st.line, mark, more);
    Behind(src, st, tags[0].text, mark + more);
    Behind(src, st, tags[0].text + mark, more);
    ScanByStop(src, st);
  }

  lemma {:induction false} PrintedReads(src: Source, st: St, tags: seq<Tag>)
    requires Remaining(src, st, PrintTags(tags)) && TagsOk(src, st.depth, tags)
    ensures Reads(src, Scan(src, st), tags)
    decreases |tags|
  {
    hide Scan, PrintTags, TagOk;
    ScanPrinted(src, st, tags);
    if tags != [] {
      var r := Scan(src, st);
      var st1 := r.(depth := DepthAfter(r.depth, tags[0]));
      if r.next.Some? {
        assert st1 == r;
        NextIsSaved(src, r);
        var r1 := Scan(src, r);
        assert tags[1..][0] == tags[1] && tags[1..][1..] == tags[2..];
        PrintedReads(src, r1.(depth := DepthAfter(r1.depth, tags[1])), tags[2..]);
      } else {
        PrintedReads(src, st1, tags[1..]);
      }
    }
  }

  lemma NextIsSaved(src: Source, st: St)
    requires Within(src, st) && st.next.Some?
    ensures var r := Scan(src, st);
            r.cur == st.next && r.next.None? && r.pos == st.pos && r.error == st.error && r.depth == st.depth
  {
  }

  // ---------------------------------------------------------------- trees

  /** Legal tags at their loop depth, and printable texts. */
  predicate NodesOk(src: Source, depth: nat, nodes: seq<Node>)
    decreases nodes, 1
  {
    forall i | 0 <= i < |nodes| :: NodeOk(src, depth, nodes[i])
  }

  predicate NodeOk(src: Source, depth: nat, node: Node)
    decreases node, 0
  {
    && TagOk(src, depth, node.tag)
    && match node
       case Leaf(_) => true
       case Cond(_, tbranch, fbranch) =>
         && (forall i | 0 <= i < |tbranch| :: NodeOk(src, depth, tbranch[i]))
         && (forall i | 0 <= i < |fbranch| :: NodeOk(src, depth, fbranch[i]))
       case Block(_, body) => forall i | 0 <= i < |body| :: NodeOk(src, depth + 1, body[i])
  }

  lemma OneMore(src: Source, depth: nat, tag: Tag, more: seq<Tag>)
    ensures TagsOk(src, depth, [tag] + more) <==> TagOk(src, depth, tag) && TagsOk(src, DepthAfter(depth, tag), more)
  {
    hide TagOk;
    assert ([tag] + more)[1..] == more;
  }

  /** Terminators are always legal. */
  lemma OneEnd(src: Source, depth: nat, tag: Tag, more: seq<Tag>)
    requires tag.Else? || tag.EndIf? || tag.EndLoop?
    ensures TagsOk(src, depth, [tag] + more) <==> TagsOk(src, DepthAfter(depth, tag), more)
  {
    OneMore(src, depth, tag, more);
  }

  lemma NodesOkFirst(src: Source, depth: nat, nodes: seq<Node>)
    requires nodes != []
    ensures NodesOk(src, depth, nodes) <==> NodeOk(src, depth, nodes[0]) && NodesOk(src, depth, nodes[1..])
  {
    hide NodeOk;
    if NodeOk(src, depth, nodes[0]) && NodesOk(src, depth, nodes[1..]) {
      forall i | 0 <= i < |nodes| ensures NodeOk(src, depth, nodes[i]) {
        if i > 0 { assert nodes[i] == nodes[1..][i - 1]; }
      }
    }
  }

  lemma FlattenFirst(nodes: seq<Node>, more: seq<Tag>)
    requires nodes != []
    ensures Flatten(nodes) + more == Flat(nodes[0]) + (Flatten(nodes[1..]) + more)
  {
  }

  lemma {:induction false} NodesTagsOk(src: Source, depth: nat, nodes: seq<Node>, more: seq<Tag>)
    requires Proper(nodes)
    ensures TagsOk(src, depth, Flatten(nodes) + more) <==> NodesOk(src, depth, nodes) && TagsOk(src, depth, more)
    decreases nodes, 1
  {
    hide TagsOk, Flat, NodeOk;
    if nodes == [] {
      assert Flatten(nodes) + more == more;
    } else {
      hide NodesOk, Flatten;
      FlattenFirst(nodes, more);
      NodesOkFirst(src, depth, nodes);
      NodesTagsOk(src, depth, nodes[1..], more);
      NodeTagsOk(src, depth, nodes[0], Flatten(nodes[1..]) + more);
    }
  }

  lemma {:induction false} NodeTagsOk(src: Source, depth: nat, node: Node, more: seq<Tag>)
    requires ProperNode(node, node.tag.Elsif?)
    ensures TagsOk(src, depth, Flat(node) + more) <==> NodeOk(src, depth, node) && TagsOk(src, depth, more)
    decreases node, 1
  {
    hide TagsOk, TagOk;
    match node
    case Leaf(tag) => OneMore(src, depth, tag, more);
    case Cond(_, _, _) => CondTagsOk(src, depth, node, more);
    case Block(_, _) => BlockTagsOk(src, depth, node, more);
  }

  lemma {:induction false} CondTagsOk(src: Source, depth: nat, node: Node, more: seq<Tag>)
    requires node.Cond? && ProperNode(node, node.tag.Elsif?)
    ensures TagsOk(src, depth, Flat(node) + more) <==> NodeOk(src, depth, node) && TagsOk(src, depth, more)
    decreases node, 0
  {
    hide TagsOk, TagOk, Flatten, FlatElse;
    var Cond(tag, tbranch, fbranch) := node;
    var tail := FlatElse(fbranch) + more;
    ElseTagsOk(src, depth, fbranch, more);
    NodesTagsOk(src, depth, tbranch, tail);
    OneMore(src, depth, tag, Flatten(tbranch) + tail);
    assert Flat(node) + more == [tag] + (Flatten(tbranch) + tail);
  }

  lemma {:induction false} ElseTagsOk(src: Source, depth: nat, fbranch: seq<Node>, more: seq<Tag>)
    requires if Chained(fbranch) then ProperNode(fbranch[0], true) else Proper(fbranch)
    ensures TagsOk(src, depth, FlatElse(fbranch) + more) <==> NodesOk(src, depth, fbranch) && TagsOk(src, depth, more)
    decreases fbranch, 2
  {
    hide TagsOk, TagOk, Flatten, NodeOk;
    if fbranch == [] {
      OneEnd(src, depth, EndIf, more);
    } else if Chained(fbranch) {
      NodeTagsOk(src, depth, fbranch[0], more);
    } else {
      var inner := Flatten(fbranch) + ([EndIf] + more);
      OneEnd(src, depth, EndIf, more);
      NodesTagsOk(src, depth, fbranch, [EndIf] + more);
      OneEnd(src, depth, Else, inner);
      assert FlatElse(fbranch) + more == [Else] + inner;
    }
  }

  lemma {:induction false} BlockTagsOk(src: Source, depth: nat, node: Node, more: seq<Tag>)
    requires node.Block? && ProperNode(node, node.tag.Elsif?)
    ensures TagsOk(src, depth, Flat(node) + more) <==> NodeOk(src, depth, node) && TagsOk(src, depth, more)
    decreases node, 0
  {
    hide TagsOk, TagOk, Flatten;
    var Block(tag, body) := node;
    OneEnd(src, depth + 1, EndLoop, more);
    NodesTagsOk(src, depth + 1, body, [EndLoop] + more);
    OneMore(src, depth, tag, Flatten(body) + ([EndLoop] + more));
    assert Flat(node) + more == [tag] + (Flatten(body) + ([EndLoop] + more));
  }

  // ---------------------------------------------------------------- what is scanned can be printed

  /** A text that was scanned holds no tag and no comment when it stands alone either. */
  lemma ScannedTextOk(src: Source, a: nat, depth: nat, piece: Piece)
    requires PieceAt(src, a, depth, piece) && piece.Mark? && piece.tag.Text? && !HoldsComment(piece.text)
    ensures piece.tag.text == piece.text && TextOk(src, depth, piece.text)
  {
    hide ScanTag, OnlyText, HoldsComment;
    var s, t := src.text, piece.text;
    var b := a + |t|;
    assert CText(t) by { SliceIsText(s, a, b); }
    if b < |s| && s[b] != '<' { PlainCharacter(src, depth, b, 0); NoTagIsOnlyText(src, depth, b, 0); }
    forall j | 0 <= j < |t| ensures ScanTag(src.(text := t), depth, j, 0).NoTag? {
      if t[j] == '<' {
        ScannedAlone(src, a, depth, piece, j);
      } else {
        PlainCharacter(src.(text := t), depth, j, 0);
      }
    }
  }

  lemma SliceIsText(s: CString, a: nat, b: nat)
    requires a <= b <= |s|
    ensures CText(s[a..b])
  {
  }

  lemma ScannedAlone(src: Source, a: nat, depth: nat, piece: Piece, j: nat)
    requires PieceAt(src, a, depth, piece) && piece.Mark? && piece.tag.Text?
    requires CText(piece.text) && Wall(src.text, a + |piece.text|) && j < |piece.text| && piece.text[j] == '<'
    ensures ScanTag(src.(text := piece.text), depth, j, 0).NoTag?
  {
    hide ScanTag, Window, IsComment;
    var t := piece.text;
    SliceHere(src.text, a, t);
    TextWindow(src.text, a, t, j);
    TagInContext(src.(text := t), j, src, a + j, |t| - j, depth, 0, 0);
    assert OnlyText(src, depth, a + j);
  }

  lemma SliceHere(s: CString, a: nat, t: string)
    requires a + |t| <= |s| && s[a..a + |t|] == t
    ensures Here(s, a, t)
  {
    forall i | 0 <= i < |t| ensures s[a + i] == t[i] { assert s[a..a + |t|][i] == t[i]; }
  }

  lemma ScannedTagOk(src: Source, a: nat, depth: nat, piece: Piece)
    requires PieceAt(src, a, depth, piece) && piece.Mark? && !piece.tag.Text?
    ensures TagOk(src, depth, piece.tag)
  {
    hide ScanTag, Legal;
    assert ScanTag(src, depth, a, 0).Found? && ScanTag(src, depth, a, 0).tag == piece.tag;
    FoundIsLegal(src, depth, a, 0);
  }

  lemma DepthFollows(stack: seq<Open>, tag: Tag)
    requires !Faulty(stack, tag)
    ensures Loops(Step(stack, tag)) == DepthAfter(Loops(stack), tag)
  {
    assert tag.If? ==> ([Then] + stack)[1..] == stack;
    assert tag.Loop? ==> ([Round] + stack)[1..] == stack;
    assert tag.Else? && stack != [] ==> ([Otherwise] + stack[1..])[1..] == stack[1..];
  }

  /** The last piece. */
  lemma LastMarkOk(src: Source, before: seq<Piece>, x: Piece)
    requires PieceAt(src, Place(before), DepthBehind(before), x) && x.Mark?
    requires x.tag.Text? ==> !HoldsComment(x.text)
    requires !Faulty(StackAfter(TagsOf(before)), x.tag)
    ensures TagOk(src, DepthBehind(before), x.tag)
    ensures DepthAfter(DepthBehind(before), x.tag) == Loops(StackAfter(TagsOf(before) + [x.tag]))
  {
    hide PieceAt, Step, Faulty, HoldsComment, Loops, TextOk, Faults;
    if x.tag.Text? {
      ScannedTextOk(src, Place(before), DepthBehind(before), x);
      TextIsOk(src, DepthBehind(before), x.tag);
    } else {
      ScannedTagOk(src, Place(before), DepthBehind(before), x);
    }
    LastTag(TagsOf(before), x.tag);
    DepthFollows(StackAfter(TagsOf(before)), x.tag);
  }

  /** The tags of the pieces are fine if those behind them are. */
  lemma {:induction false} PiecesOk(src: Source, pieces: seq<Piece>, more: seq<Tag>)
    requires Covers(src, pieces) && !Faults(TagsOf(pieces)) && !Unclosed(pieces)
    requires TagsOk(src, DepthBehind(pieces), more)
    ensures TagsOk(src, 0, TagsOf(pieces) + more)
  {
    hide TagsOk, PieceAt, Step, Faulty, HoldsComment, Loops, TagOk, StackAfter, Faults, Joined;
    if pieces == [] {
      assert TagsOf(pieces) + more == more;
      assert DepthBehind([]) == 0 by { NoLoops(); }
    } else {
      var before, x := Init(pieces), Last(pieces);
      CoverLast(src, pieces);
      if x.Mark? {
        LastTag(TagsOf(before), x.tag);
        LastMarkOk(src, before, x);
        OneMore(src, DepthBehind(before), x.tag, more);
        assert TagsOf(pieces) + more == TagsOf(before) + ([x.tag] + more);
        PiecesOk(src, before, [x.tag] + more);
      } else {
        assert TagsOf(pieces) == TagsOf(before);
        PiecesOk(src, before, more);
      }
    }
  }

  lemma NoLoops()
    ensures DepthBehind([]) == 0
  {
  }

  lemma LastTag(tags: seq<Tag>, tag: Tag)
    ensures StackAfter(tags + [tag]) == Step(StackAfter(tags), tag)
    ensures Faults(tags + [tag]) <==> Faults(tags) || Faulty(StackAfter(tags), tag)
  {
    InitLast(tags, tag);
  }

  lemma TextIsOk(src: Source, depth: nat, tag: Tag)
    requires tag.Text? && TextOk(src, depth, tag.text)
    ensures TagOk(src, depth, tag)
  {
    hide TextOk;
  }

  lemma {:induction false} DroppedOk(src: Source, depth: nat, tags: seq<Tag>)
    requires TagsOk(src, depth, tags)
    ensures TagsOk(src, depth, DropEmptyElse(tags))
    decreases |tags|
  {
    hide TagOk;
    if tags != [] {
      DroppedOk(src, DepthAfter(depth, tags[0]), tags[1..]);
      OneMore(src, depth, tags[0], DropEmptyElse(tags[1..]));
    }
  }

  /** The tree of a template without error is proper, and each of its tags and texts can be printed. */
  lemma ParsedTreesArePrintable(src: Source)
    requires !ParseTemplate(src).1.error
    ensures var nodes := ParseTemplate(src).0; Proper(nodes) && NodesOk(src, 0, nodes)
  {
    hide Scan, ParseList, TagsOk, NodesOk, Covers, Faults, Unclosed, PieceAt;
    var (nodes, st) := ParseTemplate(src);
    var pieces := TemplateIsCovered(src);
    ErrorFreeParseFlattens(src);
    NothingBehind(src, DepthBehind(pieces));
    PiecesOk(src, pieces, []);
    assert st.log + [] == st.log && Flatten(nodes) + [] == Flatten(nodes);
    DroppedOk(src, 0, st.log);
    NodesTagsOk(src, 0, nodes, []);
  }

  lemma NothingBehind(src: Source, depth: nat)
    ensures TagsOk(src, depth, [])
  {
  }

  /** Text round trip: a proper tree, written out as template text, parses to the same tree without
      error, if and only if its tags are legal and its texts hold no tag and no comment. */
  lemma PrintedTreesAreParsed(src: Source, nodes: seq<Node>)
    requires Proper(nodes) && src.text == PrintTags(Flatten(nodes))
    ensures var (nodes', st) := ParseTemplate(src); nodes' == nodes && !st.error <==> NodesOk(src, 0, nodes)
  {
    hide Scan, PrintTags, TagOk, ParseList, NodesOk, TagsOk;
    if NodesOk(src, 0, nodes) {
      assert Flatten(nodes) + [] == Flatten(nodes);
      NothingBehind(src, 0);
      NodesTagsOk(src, 0, nodes, []);
      assert Remaining(src, Start(), PrintTags(Flatten(nodes))) by { assert src.text[0..] == src.text; }
      PrintedReads(src, Start(), Flatten(nodes));
      ProperTreesAreParsed(src, nodes);
    }
    if ParseTemplate(src).0 == nodes && !ParseTemplate(src).1.error { ParsedTreesArePrintable(src); }
  }

  // ---------------------------------------------------------------- the printed form of a template

  lemma TagOkElsewhere(src: Source, other: Source, depth: nat, tag: Tag)
    requires TagOk(src, depth, tag) && other == src.(text := other.text)
    ensures TagOk(other, depth, tag)
  {
    hide ScanTag, HoldsComment;
    if tag.Text? { assert other.(text := tag.text) == src.(text := tag.text); }
  }

  lemma {:induction false} TagsOkElsewhere(src: Source, other: Source, depth: nat, tags: seq<Tag>)
    requires TagsOk(src, depth, tags) && other == src.(text := other.text)
    ensures TagsOk(other, depth, tags)
    decreases |tags|
  {
    hide TagOk;
    if tags != [] {
      TagOkElsewhere(src, other, depth, tags[0]);
      TagsOkElsewhere(src, other, DepthAfter(depth, tags[0]), tags[1..]);
    }
  }

  lemma JoinedText(a: string, b: string)
    requires CText(a) && CText(b)
    ensures CText(a + b)
  {
  }

  lemma AttrIsText(word: string, v: Option<string>)
    requires CText(word) && OptionOk(v)
    ensures CText(PrintAttr(word, v))
  {
    if v.Some? {
      var q := [Quote(v.value)];
      JoinedText(" ", word);
      JoinedText(" " + word, "=");
      JoinedText(" " + word + "=", q);
      JoinedText(" " + word + "=" + q, v.value);
      JoinedText(" " + word + "=" + q + v.value, q);
    }
  }

  lemma TagIsText(src: Source, depth: nat, tag: Tag)
    requires TagOk(src, depth, tag)
    ensures CText(PrintTag(tag))
  {
    hide PrintAttr, TextOk, ValueOk, CText, Digits;
    if tag.Text? {
      assert CText(tag.text) by { TextIsText(src, depth, tag.text); }
    } else {
      AttrsFit(src, depth, tag);
      var k, a := KindOf(tag), AttrsOf(tag);
      WordsAreText(k);
      AttrIsText("name", a.name);
      AttrIsText("fmt", a.fmt);
      AttrIsText(ValueWord(k), a.value);
      JoinedText(PrintAttr(ValueWord(k), a.value), ">");
      JoinedText(PrintAttr("fmt", a.fmt), PrintValue(k, a));
      JoinedText(PrintAttr("name", a.name), PrintFmt(k, a));
      JoinedText("<", Word(k));
      JoinedText("<" + Word(k), PrintName(k, a));
    }
  }

  lemma TextIsText(src: Source, depth: nat, text: string)
    requires TextOk(src, depth, text)
    ensures CText(text)
  {
  }

  lemma WordsAreText(k: Kind)
    ensures CText("name") && CText("fmt") && CText(ValueWord(k)) && CText(Word(k)) && CText("<") && CText(">")
  {
  }

  lemma {:induction false} PrintedIsText(src: Source, depth: nat, tags: seq<Tag>)
    requires TagsOk(src, depth, tags)
    ensures CText(PrintTags(tags))
    decreases |tags|
  {
    hide TagOk, CText, PrintTag, Parted;
    assert CText("") && CText("<*\n*>") by { SeparatorsAreText(); }
    if tags != [] {
      TagIsText(src, depth, tags[0]);
      PrintedIsText(src, DepthAfter(depth, tags[0]), tags[1..]);
      JoinedText(PrintTag(tags[0]), Separator(tags));
      JoinedText(PrintTag(tags[0]) + Separator(tags), PrintTags(tags[1..]));
    }
  }

  lemma SeparatorsAreText()
    ensures CText("") && CText("<*\n*>")
  {
  }

  /** Any template that parses without error, whatever its texts are, may be replaced by the printed
      form of its tree: it parses to the same tree, without error. */
  lemma ReprintingKeepsTheTree(src: Source)
    requires !ParseTemplate(src).1.error
    ensures var text := PrintTags(Flatten(ParseTemplate(src).0));
            && CText(text)
            && var (nodes, st) := ParseTemplate(src.(text := text)); nodes == ParseTemplate(src).0 && !st.error
  {
    hide Scan, PrintTags, Flatten, ParseList, TagsOk, NodesOk, CText;
    var nodes := ParseTemplate(src).0;
    ParsedTreesArePrintable(src);
    assert Flatten(nodes) + [] == Flatten(nodes);
    NothingBehind(src, 0);
    NodesTagsOk(src, 0, nodes, []);
    PrintedIsText(src, 0, Flatten(nodes));
    var text := PrintTags(Flatten(nodes));
    assert forall i | 0 <= i < |text| :: text[i] != '\0' by { CharsOf(text); }
    var other := src.(text := text);
    TagsOkElsewhere(src, other, 0, Flatten(nodes));
    NothingBehind(other, 0);
    NodesTagsOk(other, 0, nodes, []);
    PrintedTreesAreParsed(other, nodes);
  }

  lemma CharsOf(text: string)
    requires CText(text)
    ensures forall i | 0 <= i < |text| :: text[i] != '\0'
  {
  }

  /** Most text is printable at once, mark-up included: no '<' in it starts a comment or is followed
      by the name of a tag. */
  lemma MarkupIsOk(src: Source, depth: nat, text: string)
    requires text != "" && CText(text) && !HoldsComment(text)
    requires forall j | 0 <= j < |text| :: NameAt(text, j).None?
    ensures TextOk(src, depth, text) && Shut(text)
  {
    hide ScanTagRest;
    forall j | 0 <= j < |text| ensures ScanTag(src.(text := text), depth, j, 0).NoTag? {
      assert NameAt(text, j).None?;
    }
  }
}
