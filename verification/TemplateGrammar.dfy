/** The spellings of a tag, as a grammar of its own: the tag scanner accepts exactly these. */
module TemplateGrammar {
  import opened Prelude
  import opened TemplateScanner
  import opened TemplateLocal
  import opened TemplateTrees
  import opened TemplatePrint

  // ---------------------------------------------------------------- words

  predicate Letter(c: char) { 'a' <= c <= 'z' || 'A' <= c <= 'Z' }

  /** Equal, or the two cases of one letter. */
  predicate SameLetter(a: char, b: char) {
    a == b || (Letter(a) && Letter(b) && (a as int - b as int == 32 || b as int - a as int == 32))
  }

  predicate Alike(a: string, b: string) {
    |a| == |b| && forall i | 0 <= i < |a| :: SameLetter(a[i], b[i])
  }

  predicate IsName(word: string, k: Kind) {
    match k
    case KVar => Alike(word, "TMPL_VAR")
    case KInclude => Alike(word, "TMPL_INCLUDE")
    case KIf => Alike(word, "TMPL_IF")
    case KElsif => Alike(word, "TMPL_ELSIF")
    case KElse => Alike(word, "TMPL_ELSE")
    case KEndIf => Alike(word, "/TMPL_IF")
    case KLoop => Alike(word, "TMPL_LOOP")
    case KEndLoop => Alike(word, "/TMPL_LOOP")
    case KBreak => Alike(word, "TMPL_BREAK")
    case KContinue => Alike(word, "TMPL_CONTINUE")
  }

  predicate NeedsName(k: Kind) { k == KVar || k == KInclude || k == KIf || k == KElsif || k == KLoop }

  predicate Blank(gap: string) {
    forall i | 0 <= i < |gap| :: gap[i] == ' ' || gap[i] == '\n' || gap[i] == '\r' || gap[i] == '\t'
  }

  predicate Bare(c: char) { Letter(c) || '0' <= c <= '9' || c == '.' || c == '-' }

  // ---------------------------------------------------------------- attributes

  datatype Slot = NameSlot | FmtSlot | ValueSlot

  /** What an attribute of that name is, in a tag of kind k. */
  function SlotOf(k: Kind, word: string): Option<Slot> {
    if Alike(word, "name") && NeedsName(k) then Some(NameSlot)
    else if Alike(word, "fmt") && k == KVar then Some(FmtSlot)
    else if || (Alike(word, "default") && k == KVar)
            || (Alike(word, "value") && (k == KIf || k == KElsif))
            || (Alike(word, "level") && (k == KBreak || k == KContinue)) then Some(ValueSlot)
    else None
  }

  /** An attribute and the white space behind it; without quotes `quote` is empty. */
  datatype AttrText = AttrText(word: string, before: string, after: string, quote: string, value: string, gap: string)

  /** The attribute, followed by more. */
  function Spelled(a: AttrText, more: string): string {
    a.word + (a.before + ("=" + (a.after + (a.quote + (a.value + (a.quote + (a.gap + more)))))))
  }

  function AllSpelled(attrs: seq<AttrText>, close: string): string {
    if attrs == [] then close else Spelled(attrs[0], AllSpelled(attrs[1..], close))
  }

  /** A quoted value ends at its quote, on the same line; a bare one at the first other character. */
  predicate AttrFits(a: AttrText, more: string) {
    && Blank(a.before) && Blank(a.after) && Blank(a.gap)
    && if a.quote == "" then
         && a.value != "" && (forall i | 0 <= i < |a.value| :: Bare(a.value[i]))
         && a.gap + more != "" && !Bare((a.gap + more)[0])
       else
         && (a.quote == "\"" || a.quote == "'")
         && forall i | 0 <= i < |a.value| :: a.value[i] != '\n' && a.value[i] != a.quote[0]
  }

  const NOTHING := Attrs(0, 0, None, None, None)

  function Get(got: Attrs, slot: Slot): Option<string> {
    match slot
    case NameSlot => got.name
    case FmtSlot => got.fmt
    case ValueSlot => got.value
  }

  function Put(got: Attrs, slot: Slot, v: string): Attrs {
    match slot
    case NameSlot => got.(name := Some(v))
    case FmtSlot => got.(fmt := Some(v))
    case ValueSlot => got.(value := Some(v))
  }

  /** Attributes that the tag may have, in any order, each at most once. */
  predicate AttrsFit(k: Kind, attrs: seq<AttrText>, close: string, got: Attrs)
    decreases |attrs|
  {
    attrs != [] ==>
      var slot := SlotOf(k, attrs[0].word);
      && slot.Some? && Get(got, slot.value).None?
      && AttrFits(attrs[0], AllSpelled(attrs[1..], close))
      && AttrsFit(k, attrs[1..], close, Put(got, slot.value, attrs[0].value))
  }

  function Values(k: Kind, attrs: seq<AttrText>, got: Attrs): Attrs
    decreases |attrs|
  {
    if attrs == [] then got
    else
      var slot := SlotOf(k, attrs[0].word);
      Values(k, attrs[1..], if slot.Some? then Put(got, slot.value, attrs[0].value) else got)
  }

  // ---------------------------------------------------------------- tags

  datatype Spelling =
    Spelling(comment: bool, lead: string, word: string, gap: string, attrs: seq<AttrText>, close: string)

  function Rendered(sp: Spelling): string {
    var rest := sp.word + (sp.gap + AllSpelled(sp.attrs, sp.close));
    if sp.comment then "<!--" + (sp.lead + rest) else "<" + rest
  }

  predicate Shape(sp: Spelling, k: Kind) {
    && IsName(sp.word, k) && Blank(sp.lead) && Blank(sp.gap)
    && (!sp.comment ==> sp.lead == "")
    && (sp.gap == "" ==> sp.attrs == [] && !NeedsName(k))
    && AttrsFit(k, sp.attrs, sp.close, NOTHING)
    && if sp.comment then sp.close == "-->"
       else sp.close == ">" || (sp.close == "/>" && k !in {KIf, KEndIf, KLoop, KEndLoop})
  }

  /** The level is given, or 1. */
  predicate IsLevel(value: Option<string>, level: int) {
    if value.Some? then Atoi(value.value) == level else level == 1
  }

  /** What a tag of kind k with these values means. */
  predicate Means(src: Source, depth: nat, k: Kind, a: Attrs, tag: Tag) {
    match tag
    case Text(_) => false
    case Var(name, dflt, fmt) =>
      k == KVar && a.name == Some(name) && a.value == dflt && a.fmt == fmt && (fmt.Some? ==> fmt.value in src.fmts)
    case If(name, testval) => k == KIf && a.name == Some(name) && a.value == testval
    case Elsif(name, testval) => k == KElsif && a.name == Some(name) && a.value == testval
    case Else => k == KElse
    case EndIf => k == KEndIf
    case Include(filename) => k == KInclude && a.name == Some(filename) && src.includeDepth < 30
    case Loop(name) => k == KLoop && a.name == Some(name)
    case EndLoop => k == KEndLoop
    case Break(level) => k == KBreak && IsLevel(a.value, level) && 1 <= level <= depth
    case Continue(level) => k == KContinue && IsLevel(a.value, level) && 1 <= level <= depth
  }

  /** The tag can be spelled like this, at that loop depth. */
  ghost predicate Spells(src: Source, depth: nat, sp: Spelling, tag: Tag) {
    exists k: Kind :: Shape(sp, k) && Means(src, depth, k, Values(k, sp.attrs, NOTHING), tag)
  }

  // ---------------------------------------------------------------- characters and gaps

  lemma SameLetterLower(a: char, b: char)
    ensures SameLetter(a, b) <==> Lower(a) == Lower(b)
  {
  }

  lemma AlikeMatches(s: CString, p: nat, word: string, name: string)
    requires Here(s, p, word)
    ensures Alike(word, name) ==> Matches(s, p, name)
  {
    if Alike(word, name) {
      forall i | 0 <= i < |name| ensures Lower(s[p + i]) == Lower(name[i]) {
        assert s[p + i] == word[i];
        SameLetterLower(word[i], name[i]);
      }
    }
  }

  lemma MatchesAlike(s: CString, p: nat, name: string)
    requires Matches(s, p, name)
    ensures Alike(s[p..p + |name|], name)
  {
    var word := s[p..p + |name|];
    forall i | 0 <= i < |name| ensures SameLetter(word[i], name[i]) {
      assert Lower(s[p + i]) == Lower(name[i]);
      SameLetterLower(word[i], name[i]);
    }
  }

  /** Blanks, and then something else. */
  lemma {:induction false} GapScanned(s: CString, p: nat, gap: string, line: nat)
    requires Here(s, p, gap) && Blank(gap) && !IsBlank(At(s, p + |gap|))
    ensures ScanSpaces(s, p, line).p == p + |gap|
    decreases |gap|
  {
    if gap != "" {
      assert s[p + 0] == gap[0];
      forall i | 0 <= i < |gap[1..]| ensures s[p + 1 + i] == gap[1..][i] { assert s[p + (1 + i)] == gap[1 + i]; }
      GapScanned(s, p + 1, gap[1..], if s[p] == '\n' then line + 1 else line);
    }
  }

  lemma {:induction false} GapIsMaximal(s: CString, p: nat, line: nat)
    requires p <= |s|
    ensures var q := ScanSpaces(s, p, line).p; Blank(s[p..q]) && !IsBlank(At(s, q))
    decreases |s| - p
  {
    if IsBlank(At(s, p)) {
      var line1 := if At(s, p) == '\n' then line + 1 else line;
      GapIsMaximal(s, p + 1, line1);
      var q := ScanSpaces(s, p + 1, line1).p;
      assert s[p..q] == [s[p]] + s[p + 1..q];
    } else {
      assert s[p..p] == "";
    }
  }

  lemma {:induction false} BareScanned(s: CString, p: nat, v: string)
    requires Here(s, p, v) && (forall i | 0 <= i < |v| :: Bare(v[i])) && !Bare(At(s, p + |v|))
    ensures BareEnd(s, p) == p + |v|
    decreases |v|
  {
    if v != "" {
      assert s[p + 0] == v[0];
      forall i | 0 <= i < |v[1..]| ensures s[p + 1 + i] == v[1..][i] { assert s[p + (1 + i)] == v[1 + i]; }
      BareScanned(s, p + 1, v[1..]);
    }
  }

  lemma {:induction false} BareIsBare(s: CString, p: nat)
    requires p <= |s|
    ensures var q := BareEnd(s, p); (forall i | p <= i < q :: Bare(s[i])) && !Bare(At(s, q))
    decreases |s| - p
  {
    if IsAlnum(At(s, p)) || At(s, p) == '.' || At(s, p) == '-' { BareIsBare(s, p + 1); }
  }

  // ---------------------------------------------------------------- every spelling is accepted

  /** What stands where, in a spelled attribute. */
  lemma AttrPlaces(s: CString, p: nat, a: AttrText, more: string)
    requires Here(s, p, Spelled(a, more))
    ensures var p1 := p + |a.word|;
            var p2 := p1 + |a.before|;
            var p4 := p2 + 1 + |a.after|;
            var p5 := p4 + |a.quote|;
            var p6 := p5 + |a.value|;
            var p7 := p6 + |a.quote|;
            && Here(s, p, a.word) && Here(s, p1, a.before) && At(s, p2) == '=' && Here(s, p2 + 1, a.after)
            && Here(s, p4, a.quote) && Here(s, p5, a.value) && Here(s, p6, a.quote) && Here(s, p7, a.gap + more)
            && Here(s, p7, a.gap) && Here(s, p7 + |a.gap|, more)
            && |Spelled(a, more)| - |more| == p7 + |a.gap| - p
  {
    hide Here;
    var r7 := a.gap + more;
    var r6 := a.quote + r7;
    var r5 := a.value + r6;
    var r4 := a.quote + r5;
    var r3 := a.after + r4;
    var r2 := "=" + r3;
    var r1 := a.before + r2;
    var p1 := p + |a.word|;
    var p2 := p1 + |a.before|;
    HereParts(s, p, a.word, r1);
    HereParts(s, p1, a.before, r2);
    HereParts(s, p2, "=", r3);
    HereFirst(s, p2, "=");
    HereParts(s, p2 + 1, a.after, r4);
    var p4 := p2 + 1 + |a.after|;
    HereParts(s, p4, a.quote, r5);
    HereParts(s, p4 + |a.quote|, a.value, r6);
    HereParts(s, p4 + |a.quote| + |a.value|, a.quote, r7);
    HereParts(s, p4 + |a.quote| + |a.value| + |a.quote|, a.gap, more);
  }

  lemma HereFirst(s: CString, p: nat, x: string)
    requires Here(s, p, x)
    ensures p + |x| <= |s|
    ensures x != "" ==> At(s, p) == x[0]
  {
    if x != "" { assert s[p + 0] == x[0]; }
  }

  lemma ValueComplete(s: CString, p: nat, a: AttrText, more: string, line: nat)
    requires AttrFits(a, more) && p <= |s|
    requires Here(s, p, a.quote) && Here(s, p + |a.quote|, a.value) && Here(s, p + |a.quote| + |a.value|, a.quote)
    requires Here(s, p + |a.quote| + |a.value| + |a.quote|, a.gap + more)
    ensures var quote := At(s, p);
            var e := p + |a.quote| + |a.value|;
            && !IsBlank(quote)
            && if quote == '"' || quote == '\'' then
                 QuotedEnd(s, p + 1, quote) == e && At(s, e) == quote && |a.quote| == 1 && s[p + 1..e] == a.value
               else BareEnd(s, p) == e > p && a.quote == "" && s[p..e] == a.value
    ensures ValueAt(s, Cursor(p, line)) == Hit(a.value, p + |a.quote| + |a.value| + |a.quote|, line)
  {
    hide QuotedEnd, BareEnd;
    var q := p + |a.quote|;
    HereFirst(s, p, a.quote);
    HereFirst(s, q, a.value);
    HereFirst(s, q + |a.value|, a.quote);
    HereFirst(s, q + |a.value| + |a.quote|, a.gap + more);
    HereSlice(s, q, a.value);
    if a.quote == "" {
      BareScanned(s, p, a.value);
    } else {
      forall i | q <= i < q + |a.value| ensures s[i] != a.quote[0] && s[i] != '\n' {
        assert s[q + (i - q)] == a.value[i - q];
      }
      QuotedEndAt(s, q, |a.value|, a.quote[0]);
    }
  }

  /** Word, gap, '=', gap and value make an attribute. */
  lemma PartsMakeAttr(s: CString, name: string, p: nat, line: nat, c: Cursor, d: Cursor, r: AttrScan)
    requires name != "" && Matches(s, p, name) && p + |name| <= c.p < |s| && s[c.p] == '=' && d.p <= |s|
    requires ScanSpaces(s, p + |name|, line) == c && ScanSpaces(s, c.p + 1, c.line) == d && ValueAt(s, d) == r
    ensures ScanAttr(s, name, p, line) == r
  {
    hide ScanSpaces, Matches, ValueAt, ScanAttr;
    AttrByValue(s, name, p, line);
  }

  /** From the word of a spelled attribute to its value. */
  lemma AttrFound(s: CString, p: nat, a: AttrText, more: string, name: string, line: nat) returns (d: Cursor)
    requires Here(s, p, Spelled(a, more)) && AttrFits(a, more) && Alike(a.word, name) && name != ""
    ensures d.p == p + |a.word| + |a.before| + 1 + |a.after| <= |s|
    ensures ScanAttr(s, name, p, line) == ValueAt(s, d)
    ensures ValueAt(s, d) == Hit(a.value, d.p + |a.quote| + |a.value| + |a.quote|, d.line)
  {
    hide Here, ScanSpaces, Spelled, Matches, AttrFits, ValueAt, ScanAttr, Alike, QuotedEnd, BareEnd, Blank;
    AttrPlaces(s, p, a, more);
    AlikeMatches(s, p, a.word, name);
    AlikeFirst(a.word, name);
    var p1 := p + |a.word|;
    var p2 := p1 + |a.before|;
    var p4 := p2 + 1 + |a.after|;
    HereFirst(s, p2 + 1, a.after);
    HereFirst(s, p4, a.quote);
    GapsFit(a, more);
    GapScanned(s, p1, a.before, line);
    var c := ScanSpaces(s, p1, line);
    d := ScanSpaces(s, p2 + 1, c.line);
    ValueComplete(s, p4, a, more, d.line);
    GapScanned(s, p2 + 1, a.after, c.line);
    PartsMakeAttr(s, name, p, line, c, d, ValueAt(s, d));
  }

  /** A spelled attribute is found where it stands, up to what follows its gap. */
  lemma AttrComplete(s: CString, p: nat, a: AttrText, more: string, name: string, line: nat)
    requires Here(s, p, Spelled(a, more)) && AttrFits(a, more) && Alike(a.word, name) && name != ""
    requires more != "" && !IsBlank(more[0])
    ensures p <= |s| && Lower(At(s, p)) == Lower(name[0])
    ensures var r := ScanAttr(s, name, p, line);
            var q := p + |Spelled(a, more)| - |more|;
            && r.Hit? && r.value == a.value && ScanSpaces(s, r.end, r.line).p == q && Here(s, q, more) && q <= |s|
  {
    hide Here, ScanSpaces, Spelled, AttrFits, ValueAt, ScanAttr, Alike, Blank;
    AttrPlaces(s, p, a, more);
    AlikeFirst(a.word, name);
    HereFirst(s, p, a.word);
    var d := AttrFound(s, p, a, more, name, line);
    var p7 := d.p + |a.quote| + |a.value| + |a.quote|;
    HereFirst(s, p7 + |a.gap|, more);
    GapsFit(a, more);
    GapScanned(s, p7, a.gap, d.line);
  }

  lemma AlikeFirst(word: string, name: string)
    requires Alike(word, name) && name != ""
    ensures |word| == |name| && Lower(word[0]) == Lower(name[0])
  {
    SameLetterLower(word[0], name[0]);
  }

  lemma GapsFit(a: AttrText, more: string)
    requires AttrFits(a, more)
    ensures Blank(a.before) && Blank(a.after) && Blank(a.gap)
  {
  }

  /** The closing of a tag: no blank, no letter. */
  predicate Closes(close: string) { close != "" && (close[0] == '>' || close[0] == '/' || close[0] == '-') }

  lemma {:induction false} SpelledStart(k: Kind, attrs: seq<AttrText>, close: string, got: Attrs)
    requires Closes(close) && AttrsFit(k, attrs, close, got)
    ensures AllSpelled(attrs, close) != "" && !IsBlank(AllSpelled(attrs, close)[0])
  {
    if attrs != [] {
      WordOf(k, attrs[0].word);
      SameLetterLower(attrs[0].word[0], SlotWord(k, SlotOf(k, attrs[0].word).value)[0]);
    }
  }

  function SlotWord(k: Kind, slot: Slot): string {
    match slot
    case NameSlot => "name"
    case FmtSlot => "fmt"
    case ValueSlot => ValueWord(k)
  }

  lemma WordOf(k: Kind, word: string)
    ensures var slot := SlotOf(k, word);
            slot.Some? ==> Alike(word, SlotWord(k, slot.value)) && word != "" && SlotWord(k, slot.value) != ""
  {
  }

  predicate SameValues(a: Attrs, b: Attrs) { a.name == b.name && a.fmt == b.fmt && a.value == b.value }

  /** The scanner's next attribute, when one stands at got.p. */
  lemma NextAttribute(s: CString, k: Kind, got: Attrs, slot: Slot)
    requires got.p < |s| && Get(got, slot).None? && SlotWord(k, slot) != ""
    requires Lower(s[got.p]) == Lower(SlotWord(k, slot)[0])
    requires slot == NameSlot ==> HasName(k)
    requires slot == FmtSlot ==> k == KVar
    requires slot == ValueSlot ==> k in {KVar, KIf, KElsif, KBreak, KContinue}
    requires ScanAttr(s, SlotWord(k, slot), got.p, got.line).Hit?
    ensures var r := ScanAttr(s, SlotWord(k, slot), got.p, got.line);
            var c := ScanSpaces(s, r.end, r.line);
            ScanAttrs(s, k, got) == ScanAttrs(s, k, Put(got, slot, r.value).(p := c.p, line := c.line))
  {
    hide ScanAttr, ScanSpaces, ScanAttrs, ValueWord, Solid;
    WordsAreSolid(k);
    SolidWord(ValueWord(k));
    WordLetters(k);
    if slot != NameSlot { NotHere(s, "name", got.p, got.line); }
    if slot == ValueSlot { NotHere(s, "fmt", got.p, got.line); }
    match slot
    case NameSlot => NameNext(s, k, got);
    case FmtSlot => FmtNext(s, k, got);
    case ValueSlot => ValueNext(s, k, got);
  }

  lemma NameNext(s: CString, k: Kind, got: Attrs)
    requires got.p < |s| && got.name.None? && HasName(k) && ScanAttr(s, "name", got.p, got.line).Hit?
    ensures var r := ScanAttr(s, "name", got.p, got.line);
            var c := ScanSpaces(s, r.end, r.line);
            ScanAttrs(s, k, got) == ScanAttrs(s, k, got.(name := Some(r.value), p := c.p, line := c.line))
  {
    hide ScanAttr, ScanSpaces, ValueWord;
  }

  lemma FmtNext(s: CString, k: Kind, got: Attrs)
    requires got.p < |s| && got.fmt.None? && k == KVar && ScanAttr(s, "name", got.p, got.line) == Miss(got.line)
    requires ScanAttr(s, "fmt", got.p, got.line).Hit?
    ensures var r := ScanAttr(s, "fmt", got.p, got.line);
            var c := ScanSpaces(s, r.end, r.line);
            ScanAttrs(s, k, got) == ScanAttrs(s, k, got.(fmt := Some(r.value), p := c.p, line := c.line))
  {
    hide ScanAttr, ScanSpaces, ValueWord;
  }

  lemma ValueNext(s: CString, k: Kind, got: Attrs)
    requires got.p < |s| && got.value.None? && k in {KVar, KIf, KElsif, KBreak, KContinue} && ValueWord(k) != ""
    requires ScanAttr(s, "name", got.p, got.line) == Miss(got.line)
    requires ScanAttr(s, "fmt", got.p, got.line) == Miss(got.line) && ScanAttr(s, ValueWord(k), got.p, got.line).Hit?
    ensures var r := ScanAttr(s, ValueWord(k), got.p, got.line);
            var c := ScanSpaces(s, r.end, r.line);
            ScanAttrs(s, k, got) == ScanAttrs(s, k, got.(value := Some(r.value), p := c.p, line := c.line))
  {
    hide ScanAttr, ScanSpaces, ValueWord;
  }

  lemma {:induction false} AttrsComplete(s: CString, k: Kind, attrs: seq<AttrText>, close: string, got: Attrs)
    requires Closes(close) && AttrsFit(k, attrs, close, got) && Here(s, got.p, AllSpelled(attrs, close))
    ensures got.p <= |s|
    ensures var r := ScanAttrs(s, k, got);
            && r.p == got.p + |AllSpelled(attrs, close)| - |close| && Here(s, r.p, close)
            && SameValues(r, Values(k, attrs, got))
    decreases |attrs|
  {
    HereFirst(s, got.p, AllSpelled(attrs, close));
    if attrs == [] {
      hide Here, ScanAttr, ScanSpaces, ScanAttrs;
      CloseIsNoAttr(s, k, got);
    } else {
      hide Here, ScanAttrs, AttrsFit, Values, AllSpelled, Closes, SameValues;
      var got' := OneAttribute(s, k, attrs, close, got);
      AttrsComplete(s, k, attrs[1..], close, got');
      SameThrough(ScanAttrs(s, k, got), Values(k, attrs[1..], got'), Values(k, attrs, got));
    }
  }

  lemma SameThrough(a: Attrs, b: Attrs, c: Attrs)
    requires SameValues(a, b) && SameValues(b, c)
    ensures SameValues(a, c)
  {
  }

  /** The scanner takes the first attribute and goes on behind it. */
  lemma OneAttribute(s: CString, k: Kind, attrs: seq<AttrText>, close: string, got: Attrs) returns (got': Attrs)
    requires attrs != [] && Closes(close) && AttrsFit(k, attrs, close, got) && got.p < |s|
    requires Here(s, got.p, AllSpelled(attrs, close))
    ensures got'.p == got.p + |AllSpelled(attrs, close)| - |AllSpelled(attrs[1..], close)|
    ensures Here(s, got'.p, AllSpelled(attrs[1..], close)) && AttrsFit(k, attrs[1..], close, got')
    ensures ScanAttrs(s, k, got) == ScanAttrs(s, k, got')
    ensures SameValues(Values(k, attrs[1..], got'), Values(k, attrs, got))
  {
    hide Here, ScanAttr, ScanAttrs, ScanSpaces, Spelled, AttrFits, AttrsFit, Values, AllSpelled;
    hide SlotOf, SlotWord, Closes;
    FirstAttribute(k, attrs, close, got);
    var a, more := attrs[0], AllSpelled(attrs[1..], close);
    var slot := SlotOf(k, a.word).value;
    WordOf(k, a.word);
    SpelledStart(k, attrs[1..], close, Put(got, slot, a.value));
    AttrComplete(s, got.p, a, more, SlotWord(k, slot), got.line);
    NextAttribute(s, k, got, slot);
    var r := ScanAttr(s, SlotWord(k, slot), got.p, got.line);
    var c := ScanSpaces(s, r.end, r.line);
    got' := Put(got, slot, a.value).(p := c.p, line := c.line);
    PlaceIsNoMatter(k, attrs[1..], close, Put(got, slot, a.value), got');
  }

  lemma FirstAttribute(k: Kind, attrs: seq<AttrText>, close: string, got: Attrs)
    requires attrs != [] && AttrsFit(k, attrs, close, got)
    ensures var a, more, slot := attrs[0], AllSpelled(attrs[1..], close), SlotOf(k, attrs[0].word);
            && AllSpelled(attrs, close) == Spelled(a, more) && AttrFits(a, more)
            && slot.Some? && Get(got, slot.value).None?
            && AttrsFit(k, attrs[1..], close, Put(got, slot.value, a.value))
            && Values(k, attrs, got) == Values(k, attrs[1..], Put(got, slot.value, a.value))
            && (slot.value == NameSlot ==> HasName(k)) && (slot.value == FmtSlot ==> k == KVar)
            && (slot.value == ValueSlot ==> k in {KVar, KIf, KElsif, KBreak, KContinue})
  {
    hide AttrFits, Spelled, Alike;
  }

  lemma CloseIsNoAttr(s: CString, k: Kind, got: Attrs)
    requires got.p < |s| && (s[got.p] == '>' || s[got.p] == '/' || s[got.p] == '-')
    ensures ScanAttrs(s, k, got) == got
  {
    hide ScanAttr;
    NotHere(s, "name", got.p, got.line);
    NotHere(s, "fmt", got.p, got.line);
    NotHere(s, ValueWord(k), got.p, got.line);
  }

  lemma {:induction false} PlaceIsNoMatter(k: Kind, attrs: seq<AttrText>, close: string, a: Attrs, b: Attrs)
    requires SameValues(a, b)
    ensures AttrsFit(k, attrs, close, a) <==> AttrsFit(k, attrs, close, b)
    ensures SameValues(Values(k, attrs, a), Values(k, attrs, b))
    decreases |attrs|
  {
    hide AttrFits;
    if attrs != [] {
      var slot := SlotOf(k, attrs[0].word);
      if slot.Some? {
        PlaceIsNoMatter(k, attrs[1..], close, Put(a, slot.value, attrs[0].value), Put(b, slot.value, attrs[0].value));
      } else {
        PlaceIsNoMatter(k, attrs[1..], close, a, b);
      }
    }
  }

  lemma KeywordAnyCase(s: CString, p: nat, k: Kind)
    requires Matches(s, p, Word(k))
    ensures Keyword(s, p) == Some(k)
  {
    hide Matches, Word;
    forall j: Kind ensures Matches(s, p, Word(j)) <==> j == k {
      if j != k { OneNameOnly(s, p, k, j); }
    }
  }

  lemma OneNameOnly(s: CString, p: nat, k: Kind, j: Kind)
    requires Matches(s, p, Word(k)) && j != k
    ensures !Matches(s, p, Word(j))
  {
    hide Word;
    WordsDiffer(k, j);
    var i :| 0 <= i < |Word(k)| && i < |Word(j)| && Lower(Word(k)[i]) != Lower(Word(j)[i]);
    assert Lower(s[p + i]) == Lower(Word(k)[i]);
  }

  lemma NamesAreWords(word: string, k: Kind)
    requires IsName(word, k)
    ensures Alike(word, Word(k)) && word != "" && |word| == |Word(k)| && !IsBlank(word[0]) && word[0] != '!'
  {
    hide Alike;
    assert Alike(word, Word(k));
    AlikeFirst(word, Word(k));
  }

  lemma MeaningIsBuilt(src: Source, depth: nat, k: Kind, a: Attrs, tag: Tag)
    ensures BuildTag(src, depth, k, a) == Some(tag) <==> Means(src, depth, k, a, tag)
  {
    hide Atoi;
  }

  lemma CloseEnds(s: CString, p: nat, sp: Spelling, k: Kind)
    requires Shape(sp, k) && Here(s, p, sp.close)
    ensures TagEnd(s, p, sp.comment, Container(k)) == Some(p + |sp.close|) && Closes(sp.close)
  {
    hide AttrsFit, IsName, Blank;
    assert s[p + 0] == sp.close[0];
    if |sp.close| >= 2 { assert s[p + 1] == sp.close[1]; }
    if |sp.close| >= 3 { assert s[p + 2] == sp.close[2]; }
  }

  /** From the end of the name on. */
  lemma RestComplete(src: Source, depth: nat, sp: Spelling, k: Kind, tag: Tag, q: nat, line: nat)
    requires Shape(sp, k) && Means(src, depth, k, Values(k, sp.attrs, NOTHING), tag)
    requires Here(src.text, q, sp.gap + AllSpelled(sp.attrs, sp.close))
    ensures q <= |src.text|
    ensures var r := ScanTagRest(src, depth, sp.comment, k, q, line);
            r.Found? && r.tag == tag && r.end == q + |sp.gap| + |AllSpelled(sp.attrs, sp.close)|
  {
    hide Here, ScanAttrs, ScanSpaces, AttrsFit, AllSpelled, Values, TagEnd, BuildTag, Means, Blank, IsName;
    var s := src.text;
    HereParts(s, q, sp.gap, AllSpelled(sp.attrs, sp.close));
    HereFirst(s, q, sp.gap);
    assert Closes(sp.close);
    SpelledStart(k, sp.attrs, sp.close, NOTHING);
    HereFirst(s, q + |sp.gap|, AllSpelled(sp.attrs, sp.close));
    GapScanned(s, q, sp.gap, line);
    var d := ScanSpaces(s, q, line);
    var start := Attrs(d.p, d.line, None, None, None);
    PlaceIsNoMatter(k, sp.attrs, sp.close, NOTHING, start);
    AttrsComplete(s, k, sp.attrs, sp.close, start);
    var r := if d.p != q then ScanAttrs(s, k, start) else start;
    if d.p == q { NothingSpelled(k, sp.close); }
    CloseEnds(s, r.p, sp, k);
    MeaningIsBuilt(src, depth, k, Values(k, sp.attrs, NOTHING), tag);
    SameBuild(src, src, depth, k, Some(r), Some(Values(k, sp.attrs, NOTHING)));
  }

  lemma NothingSpelled(k: Kind, close: string)
    ensures AllSpelled([], close) == close && Values(k, [], NOTHING) == NOTHING
  {
  }

  lemma TagComplete(src: Source, depth: nat, sp: Spelling, k: Kind, tag: Tag, p: nat, line: nat)
    requires Shape(sp, k) && Means(src, depth, k, Values(k, sp.attrs, NOTHING), tag)
    requires Here(src.text, p, Rendered(sp))
    ensures var r := ScanTag(src, depth, p, line);
            r.Found? && r.tag == tag && r.end == p + |Rendered(sp)|
  {
    hide Here, ScanTagRest, ScanSpaces, AttrsFit, AllSpelled, Values, Means, Blank, IsName, Keyword, Matches, Word;
    var s := src.text;
    var rest := sp.gap + AllSpelled(sp.attrs, sp.close);
    NamesAreWords(sp.word, k);
    var q := NameComplete(s, p, sp, k, line);
    KeywordAnyCase(s, q, k);
    RestComplete(src, depth, sp, k, tag, q + |sp.word|, NameStart(s, p, line).line);
  }

  lemma CommentName(s: CString, p: nat, lead: string, word: string, rest: string, k: Kind, line: nat)
    requires Here(s, p, "<!--" + (lead + (word + rest))) && IsName(word, k) && Blank(lead)
    ensures At(s, p) == '<' && Commentish(s, p)
    ensures var q := p + 4 + |lead|;
            NameStart(s, p, line).p == q && Matches(s, q, Word(k)) && Here(s, q + |word|, rest) && |word| == |Word(k)|
  {
    hide Here, ScanSpaces, Blank, IsName, Matches, Word, Commentish;
    CommentStart(s, p, lead + (word + rest));
    HereParts(s, p + 4, lead, word + rest);
    HereFirst(s, p + 4, lead);
    NameThere(s, p + 4 + |lead|, word, rest, k);
    GapScanned(s, p + 4, lead, line);
  }

  lemma TagName(s: CString, p: nat, word: string, rest: string, k: Kind, line: nat)
    requires Here(s, p, "<" + (word + rest)) && IsName(word, k)
    ensures At(s, p) == '<' && !Commentish(s, p)
    ensures NameStart(s, p, line).p == p + 1 && Matches(s, p + 1, Word(k)) && Here(s, p + 1 + |word|, rest)
    ensures |word| == |Word(k)|
  {
    hide Here, ScanSpaces, IsName, Matches, Word;
    HereParts(s, p, "<", word + rest);
    HereFirst(s, p, "<");
    NameThere(s, p + 1, word, rest, k);
  }

  lemma RenderedAs(sp: Spelling)
    ensures var rest := sp.gap + AllSpelled(sp.attrs, sp.close);
            && |Rendered(sp)| == (if sp.comment then 4 + |sp.lead| else 1) + |sp.word| + |rest|
            && Rendered(sp) == if sp.comment then "<!--" + (sp.lead + (sp.word + rest)) else "<" + (sp.word + rest)
  {
    hide AllSpelled;
  }

  lemma ShapeOfName(sp: Spelling, k: Kind)
    requires Shape(sp, k)
    ensures IsName(sp.word, k) && Blank(sp.lead) && (!sp.comment ==> sp.lead == "")
  {
    hide IsName, Blank, AttrsFit;
  }

  /** Where the name of a spelled tag stands. */
  lemma NameComplete(s: CString, p: nat, sp: Spelling, k: Kind, line: nat) returns (q: nat)
    requires Shape(sp, k) && Here(s, p, Rendered(sp))
    ensures At(s, p) == '<' && (Commentish(s, p) <==> sp.comment)
    ensures q == NameStart(s, p, line).p && Matches(s, q, Word(k)) && |sp.word| == |Word(k)|
    ensures Here(s, q + |sp.word|, sp.gap + AllSpelled(sp.attrs, sp.close))
    ensures q + |sp.word| + |sp.gap| + |AllSpelled(sp.attrs, sp.close)| == p + |Rendered(sp)|
  {
    hide Here, NameStart, AllSpelled, Blank, IsName, Matches, Word, Rendered, Commentish, Shape;
    RenderedAs(sp);
    ShapeOfName(sp, k);
    var rest := sp.gap + AllSpelled(sp.attrs, sp.close);
    if sp.comment {
      CommentName(s, p, sp.lead, sp.word, rest, k, line);
      q := p + 4 + |sp.lead|;
    } else {
      TagName(s, p, sp.word, rest, k, line);
      q := p + 1;
    }
  }

  lemma NameThere(s: CString, q: nat, word: string, rest: string, k: Kind)
    requires Here(s, q, word + rest) && IsName(word, k)
    ensures Matches(s, q, Word(k)) && Here(s, q + |word|, rest) && |word| == |Word(k)|
    ensures !IsBlank(At(s, q)) && At(s, q) != '!'
  {
    hide Here, IsName, Matches, Word, Alike;
    NamesAreWords(word, k);
    HereParts(s, q, word, rest);
    HereFirst(s, q, word);
    AlikeMatches(s, q, word, Word(k));
  }

  lemma CommentStart(s: CString, p: nat, rest: string)
    requires Here(s, p, "<!--" + rest)
    ensures At(s, p) == '<' && Commentish(s, p) && Here(s, p + 4, rest)
  {
    HereParts(s, p, "<!--", rest);
    var x := "<!--";
    assert s[p + 0] == x[0] && s[p + 1] == x[1] && s[p + 2] == x[2] && s[p + 3] == x[3];
  }

  // ---------------------------------------------------------------- nothing else is accepted

  lemma Cut(s: string, a: nat, b: nat, c: nat)
    requires a <= b <= c <= |s|
    ensures s[a..c] == s[a..b] + s[b..c]
  {
  }

  lemma CutOne(s: string, a: nat, c: nat, x: string)
    requires a < c <= |s| && x == [s[a]]
    ensures s[a..c] == x + s[a + 1..c]
  {
  }

  /** The spelling of a value that was found. */
  lemma ValueSound(s: CString, d: Cursor, e: nat) returns (quote: string, value: string)
    requires d.p <= |s| && ValueAt(s, d).Hit? && ValueAt(s, d).end <= e <= |s|
    ensures var end := ValueAt(s, d).end;
            && value == ValueAt(s, d).value && s[d.p..e] == quote + (value + (quote + s[end..e]))
            && if quote == "" then
                 value != "" && (forall i | 0 <= i < |value| :: Bare(value[i])) && !Bare(At(s, end))
               else
                 && (quote == "\"" || quote == "'")
                 && forall i | 0 <= i < |value| :: value[i] != '\n' && value[i] != quote[0]
  {
    hide QuotedEnd, BareEnd;
    var c := At(s, d.p);
    var end := ValueAt(s, d).end;
    value := ValueAt(s, d).value;
    if c == '"' || c == '\'' {
      quote := [c];
      var q := QuotedEnd(s, d.p + 1, c);
      QuotedText(s, d.p + 1, c);
      CutOne(s, d.p, e, quote);
      Cut(s, d.p + 1, q, e);
      CutOne(s, q, e, quote);
    } else {
      quote := "";
      BareIsBare(s, d.p);
      Cut(s, d.p, end, e);
    }
  }

  /** The spelling of an attribute that was found, with the gap behind it. */
  lemma AttrSound(s: CString, name: string, p: nat, line: nat, e: nat) returns (a: AttrText)
    requires name != "" && p <= |s| && ScanAttr(s, name, p, line).Hit?
    requires var r := ScanAttr(s, name, p, line); ScanSpaces(s, r.end, r.line).p < e <= |s|
    ensures var r := ScanAttr(s, name, p, line);
            var more := s[ScanSpaces(s, r.end, r.line).p..e];
            && s[p..e] == Spelled(a, more) && Alike(a.word, name) && a.value == r.value && AttrFits(a, more)
  {
    hide ScanSpaces, ValueAt, Matches, ScanAttr, Alike, Blank;
    AttrByValue(s, name, p, line);
    var p1 := p + |name|;
    MatchesAlike(s, p, name);
    MatchFits(s, p, name);
    var c := ScanSpaces(s, p1, line);
    GapIsMaximal(s, p1, line);
    var d := ScanSpaces(s, c.p + 1, c.line);
    GapIsMaximal(s, c.p + 1, c.line);
    var r := ScanAttr(s, name, p, line);
    var q := ScanSpaces(s, r.end, r.line).p;
    GapIsMaximal(s, r.end, r.line);
    ValueStart(s, d);
    var quote, value := ValueSound(s, d, e);
    a := AttrText(s[p..p1], s[p1..c.p], s[c.p + 1..d.p], quote, value, s[r.end..q]);
    AttrCut(s, p, p1, c.p, d.p, r.end, q, e, quote, value);
  }

  lemma AttrCut(s: string, p: nat, p1: nat, c: nat, d: nat, end: nat, q: nat, e: nat, quote: string, value: string)
    requires p <= p1 <= c < d <= end <= q <= e <= |s| && s[c] == '='
    requires s[d..e] == quote + (value + (quote + s[end..e]))
    ensures s[p..e] == Spelled(AttrText(s[p..p1], s[p1..c], s[c + 1..d], quote, value, s[end..q]), s[q..e])
  {
    Cut(s, p, p1, e);
    Cut(s, p1, c, e);
    CutOne(s, c, e, "=");
    Cut(s, c + 1, d, e);
    Cut(s, end, q, e);
  }

  lemma MatchFits(s: CString, p: nat, name: string)
    requires Matches(s, p, name)
    ensures p + |name| <= |s|
  {
  }

  lemma ValueStart(s: CString, d: Cursor)
    requires d.p <= |s| && ValueAt(s, d).Hit?
    ensures d.p < ValueAt(s, d).end <= |s|
  {
  }

  lemma SlotFound(k: Kind, word: string, slot: Slot)
    requires SlotWord(k, slot) != "" && Alike(word, SlotWord(k, slot))
    requires slot == NameSlot ==> HasName(k)
    requires slot == FmtSlot ==> k == KVar
    requires slot == ValueSlot ==> k in {KVar, KIf, KElsif, KBreak, KContinue}
    ensures SlotOf(k, word) == Some(slot)
  {
    hide Alike;
    AlikeFirst(word, SlotWord(k, slot));
    if Alike(word, "name") { AlikeFirst(word, "name"); }
    if Alike(word, "fmt") { AlikeFirst(word, "fmt"); }
  }

  /** What the first step of ScanAttrs finds: an attribute, or nothing. */
  lemma FirstFound(s: CString, k: Kind, got: Attrs) returns (slot: Option<Slot>)
    requires got.p <= |s|
    ensures slot.None? ==> SameValues(ScanAttrs(s, k, got), got) && ScanAttrs(s, k, got).p == got.p
    ensures slot.Some? ==>
              && Get(got, slot.value).None? && SlotWord(k, slot.value) != ""
              && (slot.value == NameSlot ==> HasName(k)) && (slot.value == FmtSlot ==> k == KVar)
              && (slot.value == ValueSlot ==> k in {KVar, KIf, KElsif, KBreak, KContinue})
              && exists line :: FoundAt(s, k, got, slot.value, line)
  {
    hide ScanAttr, ScanSpaces, ValueWord;
    WordsAreSolid(k);
    var n := TryAttr(s, HasName(k) && got.name.None?, "name", got.p, got.line);
    var f := TryAttr(s, k == KVar && got.fmt.None?, "fmt", got.p, n.line);
    var wanted := k in {KVar, KIf, KElsif, KBreak, KContinue} && got.value.None?;
    var v := TryAttr(s, wanted, ValueWord(k), got.p, f.line);
    if n.Hit? {
      slot := Some(NameSlot);
      assert FoundAt(s, k, got, NameSlot, got.line);
    } else if f.Hit? {
      slot := Some(FmtSlot);
      assert FoundAt(s, k, got, FmtSlot, n.line);
    } else if v.Hit? {
      slot := Some(ValueSlot);
      assert FoundAt(s, k, got, ValueSlot, f.line);
    } else {
      slot := None;
    }
  }

  /** An attribute is found there on that line, and the search goes on behind it. */
  predicate FoundAt(s: CString, k: Kind, got: Attrs, slot: Slot, line: nat)
    requires got.p <= |s|
  {
    && SlotWord(k, slot) != ""
    && var r := ScanAttr(s, SlotWord(k, slot), got.p, line);
    && r.Hit?
    && var c := ScanSpaces(s, r.end, r.line);
       ScanAttrs(s, k, got) == ScanAttrs(s, k, Put(got, slot, r.value).(p := c.p, line := c.line))
  }

  lemma {:induction false} AttrsSound(s: CString, k: Kind, got: Attrs, e: nat) returns (attrs: seq<AttrText>)
    requires got.p <= |s| && ScanAttrs(s, k, got).p < e <= |s|
    ensures var r := ScanAttrs(s, k, got);
            var close := s[r.p..e];
            && got.p <= r.p && s[got.p..e] == AllSpelled(attrs, close) && AttrsFit(k, attrs, close, got)
            && SameValues(r, Values(k, attrs, got))
    decreases Unset(k, got)
  {
    hide ScanAttr, ScanAttrs, ScanSpaces, Alike, AttrFits, Spelled, SlotOf;
    var first := FirstFound(s, k, got);
    if first.None? {
      attrs := [];
    } else {
      var slot := first.value;
      var line: nat :| FoundAt(s, k, got, slot, line);
      var r := ScanAttr(s, SlotWord(k, slot), got.p, line);
      var c := ScanSpaces(s, r.end, r.line);
      var got' := Put(got, slot, r.value).(p := c.p, line := c.line);
      var a := AttrSound(s, SlotWord(k, slot), got.p, line, e);
      SlotFound(k, a.word, slot);
      var rest := AttrsSound(s, k, got', e);
      PlaceIsNoMatter(k, rest, s[ScanAttrs(s, k, got).p..e], Put(got, slot, a.value), got');
      attrs := [a] + rest;
      assert attrs[1..] == rest;
    }
  }

  lemma KeywordIsName(s: CString, p: nat)
    ensures var k := Keyword(s, p);
            k.Some? ==> p + |Word(k.value)| <= |s| && IsName(s[p..p + |Word(k.value)|], k.value)
  {
    hide Matches, Alike;
    var k := Keyword(s, p);
    if k.Some? {
      MatchFits(s, p, Word(k.value));
      MatchesAlike(s, p, Word(k.value));
    }
  }

  lemma CloseSound(s: CString, p: nat, comment: bool, container: bool)
    requires TagEnd(s, p, comment, container).Some?
    ensures var e := TagEnd(s, p, comment, container).value;
            && p < e <= |s|
            && if comment then s[p..e] == "-->" else s[p..e] == ">" || (s[p..e] == "/>" && !container)
  {
  }

  /** The spelling of the part of a tag behind its name. */
  lemma RestSound(src: Source, depth: nat, comment: bool, k: Kind, q: nat, line: nat)
    returns (gap: string, attrs: seq<AttrText>, close: string)
    requires q <= |src.text| && ScanTagRest(src, depth, comment, k, q, line).Found?
    ensures var r := ScanTagRest(src, depth, comment, k, q, line);
            && q < r.end <= |src.text| && src.text[q..r.end] == gap + AllSpelled(attrs, close)
            && Blank(gap) && (gap == "" ==> attrs == [] && !NeedsName(k)) && AttrsFit(k, attrs, close, NOTHING)
            && (if comment then close == "-->" else close == ">" || (close == "/>" && !Container(k)))
            && Means(src, depth, k, Values(k, attrs, NOTHING), r.tag)
  {
    hide ScanAttrs, ScanSpaces, TagEnd, BuildTag, Means, AttrsFit, Values, Blank;
    var s := src.text;
    var r := ScanTagRest(src, depth, comment, k, q, line);
    GapIsMaximal(s, q, line);
    var d := ScanSpaces(s, q, line);
    var start := Attrs(d.p, d.line, None, None, None);
    var a := AttrsAfterName(s, k, q, line).value;
    CloseSound(s, a.p, comment, Container(k));
    gap, attrs, close := s[q..d.p], [], s[a.p..r.end];
    if d.p != q {
      attrs := AttrsSound(s, k, start, r.end);
    } else {
      NothingSpelled(k, close);
      assert AttrsFit(k, [], close, start) by { NoAttrsFit(k, close, start); }
      assert SameValues(start, Values(k, [], start)) by { NoAttrsFit(k, close, start); }
    }
    PlaceIsNoMatter(k, attrs, close, NOTHING, start);
    Cut(s, q, d.p, r.end);
    SameBuild(src, src, depth, k, Some(a), Some(Values(k, attrs, NOTHING)));
    MeaningIsBuilt(src, depth, k, Values(k, attrs, NOTHING), r.tag);
  }

  lemma NoAttrsFit(k: Kind, close: string, got: Attrs)
    ensures AttrsFit(k, [], close, got) && Values(k, [], got) == got
  {
  }

  /** The spelling of a tag up to its name. */
  lemma StartSound(s: CString, p: nat, line: nat, e: nat) returns (lead: string)
    requires At(s, p) == '<' && NameStart(s, p, line).p <= e <= |s|
    ensures var c := NameStart(s, p, line).p;
            && p < c && Blank(lead) && (!Commentish(s, p) ==> lead == "")
            && s[p..e] == if Commentish(s, p) then "<!--" + (lead + s[c..e]) else "<" + s[c..e]
  {
    hide ScanSpaces, Blank;
    var c := NameStart(s, p, line).p;
    if Commentish(s, p) {
      GapIsMaximal(s, p + 4, line);
      lead := s[p + 4..c];
      Cut(s, p + 4, c, e);
      Cut(s, p, p + 4, e);
      assert s[p..p + 4] == "<!--";
    } else {
      lead := "";
      CutOne(s, p, e, "<");
      NoBlank();
    }
  }

  lemma TagSound(src: Source, depth: nat, p: nat, line: nat) returns (sp: Spelling)
    requires ScanTag(src, depth, p, line).Found?
    ensures var r := ScanTag(src, depth, p, line);
            && p < r.end <= |src.text| && src.text[p..r.end] == Rendered(sp) && Spells(src, depth, sp, r.tag)
  {
    hide ScanTagRest, NameStart, AttrsFit, AllSpelled, Values, Means, Blank, IsName, Keyword, Word, Commentish;
    var s := src.text;
    var r := ScanTag(src, depth, p, line);
    var c := NameStart(s, p, line);
    var k := Keyword(s, c.p).value;
    KeywordIsName(s, c.p);
    var q := c.p + |Word(k)|;
    var gap, attrs, close := RestSound(src, depth, Commentish(s, p), k, q, c.line);
    Cut(s, c.p, q, r.end);
    var lead := StartSound(s, p, line, r.end);
    sp := Spelling(Commentish(s, p), lead, s[c.p..q], gap, attrs, close);
    assert Shape(sp, k);
  }

  lemma NoBlank()
    ensures Blank("")
  {
  }

  /** The scanner accepts exactly the spellings of tags: names and attribute names in any case, as a tag
      or as an HTML comment, attributes in any order with quotes or without, any white space between
      the parts, and a closing slash for tags that contain nothing. */
  lemma TagsAreSpelled(src: Source, depth: nat, p: nat, line: nat, end: nat, tag: Tag)
    ensures (var r := ScanTag(src, depth, p, line); r.Found? && r.end == end && r.tag == tag)
       <==> p < end <= |src.text| && exists sp :: Rendered(sp) == src.text[p..end] && Spells(src, depth, sp, tag)
  {
    hide ScanTag, Rendered, Shape, Means, Values;
    var r := ScanTag(src, depth, p, line);
    if r.Found? && r.end == end && r.tag == tag {
      var sp := TagSound(src, depth, p, line);
    }
    if p < end <= |src.text| {
      if sp :| Rendered(sp) == src.text[p..end] && Spells(src, depth, sp, tag) {
        var k: Kind :| Shape(sp, k) && Means(src, depth, k, Values(k, sp.attrs, NOTHING), tag);
        SliceHere(src.text, p, src.text[p..end]);
        TagComplete(src, depth, sp, k, tag, p, line);
      }
    }
  }

  // ---------------------------------------------------------------- in plain words

  /** The plainest spelling of a tag. */
  function PlainSpelling(word: string, name: Option<string>): string {
    "<" + word + (if name.Some? then " name=\"" + (name.value + "\">") else ">")
  }

  /** The name that belongs to the tag, and the tag's own name attribute, if it has one. */
  predicate PlainName(tag: Tag, word: string, name: Option<string>) {
    match tag
    case Text(_) => false
    case Var(n, dflt, fmt) => word == "TMPL_VAR" && name == Some(n) && dflt.None? && fmt.None?
    case If(n, testval) => word == "TMPL_IF" && name == Some(n) && testval.None?
    case Elsif(n, testval) => word == "TMPL_ELSIF" && name == Some(n) && testval.None?
    case Else => word == "TMPL_ELSE" && name.None?
    case EndIf => word == "/TMPL_IF" && name.None?
    case Include(n) => word == "TMPL_INCLUDE" && name == Some(n)
    case Loop(n) => word == "TMPL_LOOP" && name == Some(n)
    case EndLoop => word == "/TMPL_LOOP" && name.None?
    case Break(level) => word == "TMPL_BREAK" && name.None? && level == 1
    case Continue(level) => word == "TMPL_CONTINUE" && name.None? && level == 1
  }

  function KindFor(tag: Tag): Kind
    requires !tag.Text?
  {
    match tag
    case Var(_, _, _) => KVar
    case If(_, _) => KIf
    case Elsif(_, _) => KElsif
    case Else => KElse
    case EndIf => KEndIf
    case Include(_) => KInclude
    case Loop(_) => KLoop
    case EndLoop => KEndLoop
    case Break(_) => KBreak
    case Continue(_) => KContinue
  }

  /** Each plain spelling is scanned as its tag: a break or continue inside a loop, an include below the limit. */
  lemma PlainTagsAreScanned(src: Source, depth: nat, p: nat, line: nat, tag: Tag, word: string, name: Option<string>)
    requires PlainName(tag, word, name) && Here(src.text, p, PlainSpelling(word, name))
    requires name.Some? ==> forall i | 0 <= i < |name.value| :: name.value[i] != '"' && name.value[i] != '\n'
    requires (tag.Break? || tag.Continue? ==> depth >= 1) && (tag.Include? ==> src.includeDepth < 30)
    ensures var r := ScanTag(src, depth, p, line);
            r.Found? && r.tag == tag && r.end == p + |PlainSpelling(word, name)|
  {
    hide ScanTag, Here, Rendered, Shape, Values, PlainSpelling, Alike;
    var k := KindFor(tag);
    assert IsName(word, k) by { AlikeItself(word); }
    var sp := PlainForm(word, name);
    PlainShape(k, word, name);
    PlainText(word, name);
    TagComplete(src, depth, sp, k, tag, p, line);
  }

  function PlainForm(word: string, name: Option<string>): Spelling {
    if name.Some? then Spelling(false, "", word, " ", [AttrText("name", "", "", "\"", name.value, "")], ">")
    else Spelling(false, "", word, "", [], ">")
  }

  lemma AlikeItself(word: string)
    ensures Alike(word, word)
  {
  }

  lemma NameFits(n: string)
    requires forall i | 0 <= i < |n| :: n[i] != '"' && n[i] != '\n'
    ensures AttrFits(AttrText("name", "", "", "\"", n, ""), ">")
  {
  }

  lemma PlainShape(k: Kind, word: string, name: Option<string>)
    requires IsName(word, k) && (name.Some? <==> NeedsName(k))
    requires name.Some? ==> forall i | 0 <= i < |name.value| :: name.value[i] != '"' && name.value[i] != '\n'
    ensures var sp := PlainForm(word, name);
            Shape(sp, k) && Values(k, sp.attrs, NOTHING) == NOTHING.(name := name)
  {
    hide IsName, AttrFits, Alike;
    var attrs := PlainForm(word, name).attrs;
    if name.Some? {
      NameFits(name.value);
      AlikeItself("name");
      assert attrs[1..] == [] && SlotOf(k, "name") == Some(NameSlot);
      assert AttrsFit(k, attrs[1..], ">", Put(NOTHING, NameSlot, name.value));
    }
  }

  lemma PlainText(word: string, name: Option<string>)
    ensures Rendered(PlainForm(word, name)) == PlainSpelling(word, name)
  {
    if name.Some? {
      var a := AttrText("name", "", "", "\"", name.value, "");
      assert [a][1..] == [];
      assert AllSpelled([a], ">") == "name=\"" + (name.value + "\">");
    }
  }

  // ---------------------------------------------------------------- levels

  function Number(digits: string): nat
    requires forall i | 0 <= i < |digits| :: '0' <= digits[i] <= '9'
  {
    if digits == "" then 0
    else 10 * Number(digits[..|digits| - 1]) + (digits[|digits| - 1] as nat - 48)
  }

  lemma {:induction false} DigitsThenJunk(digits: string, junk: string, acc: nat)
    requires (forall i | 0 <= i < |digits| :: IsDigit(digits[i])) && (junk != "" ==> !IsDigit(junk[0]))
    ensures AtoiDigits(digits + junk, acc) == AtoiDigits(digits, acc)
    decreases |digits|
  {
    if digits == "" {
      assert digits + junk == junk;
    } else {
      assert (digits + junk)[1..] == digits[1..] + junk;
      DigitsThenJunk(digits[1..], junk, 10 * acc + (digits[0] - '0') as nat);
    }
  }

  lemma {:induction false} DigitsAreANumber(digits: string)
    requires forall i | 0 <= i < |digits| :: '0' <= digits[i] <= '9'
    ensures AtoiDigits(digits, 0) == Number(digits)
    decreases |digits|
  {
    if digits != "" {
      var init, last := digits[..|digits| - 1], digits[|digits| - 1];
      DigitsAreANumber(init);
      DigitsAppended(init, last, 0);
      assert digits == init + [last];
    }
  }

  predicate Skipped(gap: string) {
    forall i | 0 <= i < |gap| :: gap[i] in {' ', '\t', '\n', 11 as char, 12 as char, '\r'}
  }

  /** A level is read as C reads numbers: blanks, a sign, digits, and anything behind them; without
      digits it is 0. */
  lemma {:induction false} LevelsAreRead(gap: string, sign: string, digits: string, junk: string)
    requires Skipped(gap) && sign in {"", "-", "+"} && forall i | 0 <= i < |digits| :: '0' <= digits[i] <= '9'
    requires junk != "" ==> !IsDigit(junk[0])
    requires sign == "" && digits == "" && junk != "" ==> !IsSpace(junk[0]) && junk[0] != '-' && junk[0] != '+'
    ensures Atoi(gap + (sign + (digits + junk))) == (if sign == "-" then -1 else 1) * Number(digits)
    decreases |gap|
  {
    var rest := sign + (digits + junk);
    if gap == "" {
      assert gap + rest == rest;
      DigitsThenJunk(digits, junk, 0);
      DigitsAreANumber(digits);
      if sign == "" {
        assert rest == digits + junk;
      } else {
        assert rest[1..] == digits + junk;
      }
    } else {
      assert (gap + rest)[1..] == gap[1..] + rest;
      LevelsAreRead(gap[1..], sign, digits, junk);
    }
  }
}
