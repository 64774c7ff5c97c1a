/** The scanner of the template engine (ctemplate.c) on characters. */
module TemplateScanner {
  import opened Prelude

  /** A C string without its terminating null. */
  type CString = s: string | forall i | 0 <= i < |s| :: s[i] != '\0'

  function At(s: CString, p: nat): char {
    if p < |s| then s[p] else '\0'
  }

  datatype Tag =
    | Text(text: string)
    | Var(name: string, dflt: Option<string>, fmt: Option<string>)
    | If(name: string, testval: Option<string>)
    | Elsif(name: string, testval: Option<string>)
    | Else
    | EndIf
    | Include(filename: string)
    | Loop(name: string)
    | EndLoop
    | Break(level: nat)
    | Continue(level: nat)

  /** What a template knows besides its text: the format functions passed to it by name,
      and how deep it is included. */
  datatype Source = Source(text: CString, fmts: set<string>, includeDepth: nat)

  const MAX_INCLUDE_DEPTH := 30

  // ---------------------------------------------------------------- characters

  function Lower(c: char): char {
    if 'A' <= c <= 'Z' then c - 'A' + 'a' else c
  }

  predicate IsBlank(c: char) { c == ' ' || c == '\n' || c == '\r' || c == '\t' }

  predicate IsDigit(c: char) { '0' <= c <= '9' }

  predicate IsAlnum(c: char) { IsDigit(c) || 'a' <= c <= 'z' || 'A' <= c <= 'Z' }

  /** strncasecmp(p, word, strlen(word)) == 0 */
  predicate Matches(s: CString, p: nat, word: string) {
    p + |word| <= |s| && forall k | 0 <= k < |word| :: Lower(s[p + k]) == Lower(word[k])
  }

  // ---------------------------------------------------------------- white space and comments

  datatype Cursor = Cursor(p: nat, line: nat)

  function ScanSpaces(s: CString, p: nat, line: nat): (c: Cursor)
    requires p <= |s|
    ensures p <= c.p <= |s|
    decreases |s| - p
  {
    if IsBlank(At(s, p)) then ScanSpaces(s, p + 1, if At(s, p) == '\n' then line + 1 else line)
    else Cursor(p, line)
  }

  datatype CommentScan = NoComment | Comment(end: nat, line: nat) | Unterminated(line: nat)

  function FindCommentEnd(s: CString, p: nat, line: nat): (c: CommentScan)
    requires p <= |s|
    ensures c.Comment? ==> p + 2 <= c.end <= |s|
    ensures !c.NoComment?
    decreases |s| - p
  {
    if p == |s| then Unterminated(line)
    else
      var line1 := if s[p] == '\n' then line + 1 else line;
      if s[p] == '*' && At(s, p + 1) == '>' then Comment(p + 2, line1)
      else FindCommentEnd(s, p + 1, line1)
  }

  function ScanComment(s: CString, p: nat, line: nat): (c: CommentScan)
    requires p <= |s|
    ensures c.Comment? ==> p + 4 <= c.end <= |s|
  {
    if At(s, p) != '<' || At(s, p + 1) != '*' then NoComment else FindCommentEnd(s, p + 2, line)
  }

  // ---------------------------------------------------------------- attributes

  /** A failed attempt may already have counted line ends. */
  datatype AttrScan = Miss(line: nat) | Hit(value: string, end: nat, line: nat)

  /** First position at or after p that ends a quoted value. */
  function QuotedEnd(s: CString, p: nat, quote: char): (e: nat)
    requires p <= |s|
    ensures p <= e <= |s|
    decreases |s| - p
  {
    if p == |s| || s[p] == quote || s[p] == '\n' then p else QuotedEnd(s, p + 1, quote)
  }

  function BareEnd(s: CString, p: nat): (e: nat)
    requires p <= |s|
    ensures p <= e <= |s|
    decreases |s| - p
  {
    if IsAlnum(At(s, p)) || At(s, p) == '.' || At(s, p) == '-' then BareEnd(s, p + 1) else p
  }

  function ScanAttr(s: CString, word: string, p: nat, line: nat): (a: AttrScan)
    requires p <= |s| && word != ""
    ensures a.Hit? ==> p < a.end <= |s|
  {
    if !Matches(s, p, word) then Miss(line)
    else
      var c := ScanSpaces(s, p + |word|, line);
      if At(s, c.p) != '=' then Miss(c.line)
      else
        var d := ScanSpaces(s, c.p + 1, c.line);
        var quote := At(s, d.p);
        if quote == '"' || quote == '\'' then
          var e := QuotedEnd(s, d.p + 1, quote);
          if At(s, e) != quote then Miss(d.line) else Hit(s[d.p + 1..e], e + 1, d.line)
        else
          var e := BareEnd(s, d.p);
          if e == d.p then Miss(d.line) else Hit(s[d.p..e], e, d.line)
  }

  // ---------------------------------------------------------------- tags

  datatype Kind = KVar | KInclude | KIf | KElsif | KElse | KEndIf | KLoop | KEndLoop | KBreak | KContinue

  function Word(k: Kind): string {
    match k
    case KVar => "TMPL_VAR"
    case KInclude => "TMPL_INCLUDE"
    case KIf => "TMPL_IF"
    case KElsif => "TMPL_ELSIF"
    case KElse => "TMPL_ELSE"
    case KEndIf => "/TMPL_IF"
    case KLoop => "TMPL_LOOP"
    case KEndLoop => "/TMPL_LOOP"
    case KBreak => "TMPL_BREAK"
    case KContinue => "TMPL_CONTINUE"
  }

  predicate HasName(k: Kind) { k in {KVar, KInclude, KIf, KElsif, KLoop} }

  predicate Container(k: Kind) { k in {KIf, KEndIf, KLoop, KEndLoop} }

  /** The tag name at p; the names are tried in this order. */
  function Keyword(s: CString, p: nat): (k: Option<Kind>)
    ensures k.Some? ==> Matches(s, p, Word(k.value))
  {
    if Matches(s, p, Word(KVar)) then Some(KVar)
    else if Matches(s, p, Word(KInclude)) then Some(KInclude)
    else if Matches(s, p, Word(KIf)) then Some(KIf)
    else if Matches(s, p, Word(KElsif)) then Some(KElsif)
    else if Matches(s, p, Word(KElse)) then Some(KElse)
    else if Matches(s, p, Word(KEndIf)) then Some(KEndIf)
    else if Matches(s, p, Word(KLoop)) then Some(KLoop)
    else if Matches(s, p, Word(KEndLoop)) then Some(KEndLoop)
    else if Matches(s, p, Word(KBreak)) then Some(KBreak)
    else if Matches(s, p, Word(KContinue)) then Some(KContinue)
    else None
  }

  /** The attributes found so far and the position after them. `value` is the attribute
      "default", "value" or "level". */
  datatype Attrs = Attrs(p: nat, line: nat, name: Option<string>, fmt: Option<string>, value: Option<string>)

  function ValueWord(k: Kind): string {
    match k
    case KVar => "default"
    case KIf => "value"
    case KElsif => "value"
    case _ => "level"
  }

  function Unset(k: Kind, a: Attrs): nat {
    (if HasName(k) && a.name.None? then 1 else 0)
    + (if k == KVar && a.fmt.None? then 1 else 0)
    + (if k in {KVar, KIf, KElsif, KBreak, KContinue} && a.value.None? then 1 else 0)
  }

  function TryAttr(s: CString, wanted: bool, word: string, p: nat, line: nat): (a: AttrScan)
    requires p <= |s| && word != ""
    ensures a.Hit? ==> wanted && p < a.end <= |s|
  {
    if wanted then ScanAttr(s, word, p, line) else Miss(line)
  }

  /** Attributes in any order, each at most once, until none matches. */
  function ScanAttrs(s: CString, k: Kind, a: Attrs): (r: Attrs)
    requires a.p <= |s|
    ensures a.p <= r.p <= |s|
    decreases Unset(k, a)
  {
    var n := TryAttr(s, HasName(k) && a.name.None?, "name", a.p, a.line);
    if n.Hit? then
      var c := ScanSpaces(s, n.end, n.line);
      ScanAttrs(s, k, a.(p := c.p, line := c.line, name := Some(n.value)))
    else
      var f := TryAttr(s, k == KVar && a.fmt.None?, "fmt", a.p, n.line);
      if f.Hit? then
        var c := ScanSpaces(s, f.end, f.line);
        ScanAttrs(s, k, a.(p := c.p, line := c.line, fmt := Some(f.value)))
      else
        var wanted := k in {KVar, KIf, KElsif, KBreak, KContinue} && a.value.None?;
        var v := TryAttr(s, wanted, ValueWord(k), a.p, f.line);
        if v.Hit? then
          var c := ScanSpaces(s, v.end, v.line);
          ScanAttrs(s, k, a.(p := c.p, line := c.line, value := Some(v.value)))
        else
          a.(line := v.line)
  }

  /** Where the tag ends, if it ends at p. */
  function TagEnd(s: CString, p: nat, commentish: bool, container: bool): (e: Option<nat>)
    ensures e.Some? ==> p < e.value <= |s|
  {
    if !commentish && At(s, p) == '>' then Some(p + 1)
    else if !commentish && !container && At(s, p) == '/' && At(s, p + 1) == '>' then Some(p + 2)
    else if commentish && At(s, p) == '-' && At(s, p + 1) == '-' && At(s, p + 2) == '>' then Some(p + 3)
    else None
  }

  /** C isspace in the default locale. */
  predicate IsSpace(c: char) { c == ' ' || '\t' <= c <= '\r' }

  function AtoiDigits(v: string, acc: nat): nat
    decreases |v|
  {
    if v != "" && IsDigit(v[0]) then AtoiDigits(v[1..], 10 * acc + (v[0] - '0') as nat) else acc
  }

  function Atoi(v: string): int
    decreases |v|
  {
    if v == "" then 0
    else if IsSpace(v[0]) then Atoi(v[1..])
    else if v[0] == '-' then 0 - AtoiDigits(v[1..], 0)
    else if v[0] == '+' then AtoiDigits(v[1..], 0)
    else AtoiDigits(v, 0)
  }

  /** The level of a break or continue, if it lies within the loops around it. */
  function LevelOf(depth: nat, value: Option<string>): (r: Option<nat>)
    ensures r.Some? ==> 1 <= r.value <= depth
  {
    var level := if value.Some? then Atoi(value.value) else 1;
    if depth < 1 || level < 1 || level > depth then None else Some(level)
  }

  /** The tag node, unless an attribute is missing or bad. */
  function BuildTag(src: Source, depth: nat, k: Kind, a: Attrs): (r: Option<Tag>)
    ensures r.Some? ==> !r.value.Text?
  {
    if HasName(k) && a.name.None? then None
    else
      match k
      case KVar =>
        if a.fmt.Some? && a.fmt.value !in src.fmts then None
        else Some(Var(a.name.value, a.value, a.fmt))
      case KInclude =>
        if src.includeDepth >= MAX_INCLUDE_DEPTH then None else Some(Include(a.name.value))
      case KIf => Some(If(a.name.value, a.value))
      case KElsif => Some(Elsif(a.name.value, a.value))
      case KElse => Some(Else)
      case KEndIf => Some(EndIf)
      case KLoop => Some(Loop(a.name.value))
      case KEndLoop => Some(EndLoop)
      case KBreak =>
        var level := LevelOf(depth, a.value);
        if level.None? then None else Some(Break(level.value))
      case KContinue =>
        var level := LevelOf(depth, a.value);
        if level.None? then None else Some(Continue(level.value))
  }

  datatype TagScan = NoTag | Found(tag: Tag, end: nat, line: nat)

  /** White space is required between a tag name and its first attribute. */
  function AttrsAfterName(s: CString, k: Kind, q: nat, line: nat): (r: Option<Attrs>)
    requires q <= |s|
    ensures r.Some? ==> q <= r.value.p <= |s|
  {
    var d := ScanSpaces(s, q, line);
    var start := Attrs(d.p, d.line, None, None, None);
    if d.p != q then Some(ScanAttrs(s, k, start))
    else if HasName(k) then None
    else Some(start)
  }

  /** The rest of a tag whose name ends at q. */
  function ScanTagRest(src: Source, depth: nat, commentish: bool, k: Kind, q: nat, line: nat): (r: TagScan)
    requires q <= |src.text|
    ensures r.Found? ==> q < r.end <= |src.text| && !r.tag.Text?
  {
    var a := AttrsAfterName(src.text, k, q, line);
    if a.None? then NoTag
    else
      var e := TagEnd(src.text, a.value.p, commentish, Container(k));
      var tag := BuildTag(src, depth, k, a.value);
      if e.None? || tag.None? then NoTag else Found(tag.value, e.value, a.value.line)
  }

  /** A tag may be written as an HTML comment. */
  predicate Commentish(s: CString, p: nat) {
    At(s, p + 1) == '!' && At(s, p + 2) == '-' && At(s, p + 3) == '-'
  }

  /** Where the name of the tag at p starts. */
  function NameStart(s: CString, p: nat, line: nat): (c: Cursor)
    requires At(s, p) == '<'
    ensures p < c.p <= |s|
  {
    if Commentish(s, p) then ScanSpaces(s, p + 4, line) else Cursor(p + 1, line)
  }

  /** The tag at p, at loop nesting depth `depth`. */
  function ScanTag(src: Source, depth: nat, p: nat, line: nat): (r: TagScan)
    ensures r.Found? ==> p < r.end <= |src.text| && !r.tag.Text?
  {
    if At(src.text, p) != '<' then NoTag
    else
      var c := NameStart(src.text, p, line);
      var k := Keyword(src.text, c.p);
      if k.None? then NoTag
      else ScanTagRest(src, depth, Commentish(src.text, p), k.value, c.p + |Word(k.value)|, c.line)
  }

  // ---------------------------------------------------------------- the next text or tag

  /** What ends a text that is scanned from i on: a comment, a tag, or the end. */
  datatype Stop =
    | AtEnd(i: nat, line: nat, bad: bool)
    | AtComment(i: nat, end: nat, line: nat, bad: bool)
    | AtTag(i: nat, tag: Tag, end: nat, line: nat, bad: bool)

  /** `bad` records that an unterminated comment was met. */
  function FindStop(src: Source, depth: nat, i: nat, line: nat, bad: bool): (r: Stop)
    requires i <= |src.text|
    ensures i <= r.i <= |src.text|
    ensures r.AtEnd? ==> r.i == |src.text|
    ensures !r.AtEnd? ==> r.i < r.end <= |src.text|
    ensures r.AtTag? ==> !r.tag.Text?
    ensures bad ==> r.bad
    decreases |src.text| - i
  {
    var s := src.text;
    if i == |s| then AtEnd(i, line, bad)
    else
      var line1 := if s[i] == '\n' then line + 1 else line;
      if s[i] != '<' then FindStop(src, depth, i + 1, line1, bad)
      else
        match ScanComment(s, i, line1)
        case Comment(end, line2) => AtComment(i, end, line2, bad)
        case Unterminated(line2) =>
          (match ScanTag(src, depth, i, line2)
           case Found(tag, end, line3) => AtTag(i, tag, end, line3, true)
           case NoTag => FindStop(src, depth, i + 1, line2, true))
        case NoComment =>
          match ScanTag(src, depth, i, line1)
          case Found(tag, end, line3) => AtTag(i, tag, end, line3, bad)
          case NoTag => FindStop(src, depth, i + 1, line1, bad)
  }
}
