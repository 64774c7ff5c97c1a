/** struct template with its scanner and parser functions, which move scanptr, the saved tag,
    the line counter and the loop depth in place. */
module TemplateObjects {
  import opened Prelude
  import Spec = TemplateScanner
  import Grammar = TemplateParser
  import opened TemplateScanner
  import opened TemplateParser

  class Template {
    const src: Source
    var scanptr: nat
    var nexttag: Option<Tag>
    var curtag: Option<Tag>
    var linenum: nat
    var error: bool
    var loopDepth: nat
    ghost var unclosed: bool
    ghost var log: seq<Tag>

    ghost function State(): St
      reads this
    {
      St(scanptr, nexttag, curtag, linenum, error, unclosed, loopDepth, log)
    }

    constructor (src: Source)
      ensures this.src == src && State() == Start()
    {
      this.src := src;
      scanptr, nexttag, curtag, linenum, error, loopDepth := 0, None, None, 1, false, 0;
      unclosed, log := false, [];
    }

    method ScanSpaces(p: nat) returns (q: nat)
      requires p <= |src.text|
      modifies this`linenum
      ensures Cursor(q, linenum) == Spec.ScanSpaces(src.text, p, old(linenum))
    {
      q := p;
      while IsBlank(At(src.text, q))
        invariant p <= q <= |src.text|
        invariant Spec.ScanSpaces(src.text, q, linenum) == Spec.ScanSpaces(src.text, p, old(linenum))
        decreases |src.text| - q
      {
        if At(src.text, q) == '\n' {
          linenum := linenum + 1;
        }
        q := q + 1;
      }
    }

    /** True when a comment was found; scanptr is then behind it. */
    method ScanComment(p: nat) returns (found: bool)
      requires p <= |src.text|
      modifies this`scanptr, this`linenum, this`error, this`unclosed
      ensures match Spec.ScanComment(src.text, p, old(linenum))
              case NoComment =>
                !found && linenum == old(linenum) && error == old(error) && unclosed == old(unclosed)
                && scanptr == old(scanptr)
              case Comment(end, line) =>
                found && scanptr == end && linenum == line && error == old(error) && unclosed == old(unclosed)
              case Unterminated(line) =>
                !found && linenum == line && error && unclosed && scanptr == old(scanptr)
    {
      var s := src.text;
      if At(s, p) != '<' || At(s, p + 1) != '*' {
        return false;
      }
      var q := p + 2;
      while q < |s|
        invariant p + 2 <= q <= |s|
        invariant scanptr == old(scanptr) && error == old(error) && unclosed == old(unclosed)
        invariant FindCommentEnd(s, q, linenum) == FindCommentEnd(s, p + 2, old(linenum))
      {
        if s[q] == '\n' {
          linenum := linenum + 1;
        }
        if s[q] == '*' && At(s, q + 1) == '>' {
          scanptr := q + 2;
          return true;
        }
        q := q + 1;
      }
      error, unclosed := true, true;
      return false;
    }

    method ScanAttr(word: string, p: nat) returns (value: Option<string>)
      requires p <= |src.text| && word != ""
      modifies this`scanptr, this`linenum
      ensures match Spec.ScanAttr(src.text, word, p, old(linenum))
              case Miss(line) => value == None && linenum == line
              case Hit(v, end, line) => value == Some(v) && scanptr == end && linenum == line
    {
      var s := src.text;
      if !Matches(s, p, word) {
        return None;
      }
      var q := ScanSpaces(p + |word|);
      if At(s, q) != '=' {
        return None;
      }
      q := ScanSpaces(q + 1);
      var quote := At(s, q);
      if quote == '"' || quote == '\'' {
        q := q + 1;
        var i := q;
        while i < |s| && s[i] != quote && s[i] != '\n'
          invariant q <= i <= |s| && QuotedEnd(s, i, quote) == QuotedEnd(s, q, quote)
        {
          i := i + 1;
        }
        if At(s, i) != quote {
          return None;
        }
        scanptr := i + 1;
        return Some(s[q..i]);
      }
      var i := q;
      while IsAlnum(At(s, i)) || At(s, i) == '.' || At(s, i) == '-'
        invariant q <= i <= |s| && BareEnd(s, i) == BareEnd(s, q)
        decreases |s| - i
      {
        i := i + 1;
      }
      if i == q {
        return None;
      }
      scanptr := i;
      return Some(s[q..i]);
    }

    method TryAttr(wanted: bool, word: string, p: nat) returns (value: Option<string>)
      requires p <= |src.text| && word != ""
      modifies this`scanptr, this`linenum
      ensures match Spec.TryAttr(src.text, wanted, word, p, old(linenum))
              case Miss(line) => value == None && linenum == line
              case Hit(v, end, line) => value == Some(v) && scanptr == end && linenum == line
    {
      if wanted {
        value := ScanAttr(word, p);
      } else {
        value := None;
      }
    }

    /** The loop over name=, fmt=, and default= or value= or level=. */
    method ScanAttrs(k: Kind, p: nat) returns (a: Attrs)
      requires p <= |src.text|
      modifies this`scanptr, this`linenum
      ensures a == Spec.ScanAttrs(src.text, k, Attrs(p, old(linenum), None, None, None)) && linenum == a.line
    {
      hide Spec.ScanAttr, Spec.ScanSpaces;
      var s := src.text;
      var wanted := k in {KVar, KIf, KElsif, KBreak, KContinue};
      var word := ValueWord(k);
      a := Attrs(p, linenum, None, None, None);
      var more := true;
      while more
        invariant a.p <= |s| && linenum == a.line
        invariant more ==> Spec.ScanAttrs(s, k, a) == Spec.ScanAttrs(s, k, Attrs(p, old(linenum), None, None, None))
        invariant !more ==> a == Spec.ScanAttrs(s, k, Attrs(p, old(linenum), None, None, None))
        decreases Unset(k, a), more
      {
        var v := TryAttr(HasName(k) && a.name.None?, "name", a.p);
        if v.Some? {
          var q := ScanSpaces(scanptr);
          a := a.(p := q, line := linenum, name := v);
        } else {
          v := TryAttr(k == KVar && a.fmt.None?, "fmt", a.p);
          if v.Some? {
            var q := ScanSpaces(scanptr);
            a := a.(p := q, line := linenum, fmt := v);
          } else {
            v := TryAttr(wanted && a.value.None?, word, a.p);
            if v.Some? {
              var q := ScanSpaces(scanptr);
              a := a.(p := q, line := linenum, value := v);
            } else {
              more := false;
              a := a.(line := linenum);
            }
          }
        }
      }
    }

    /** The tag at p, or None with the line counter as before. */
    method ScanTag(p: nat) returns (tag: Option<Tag>)
      requires p <= |src.text|
      modifies this`scanptr, this`linenum
      ensures match Spec.ScanTag(src, loopDepth, p, old(linenum))
              case NoTag => tag == None && linenum == old(linenum)
              case Found(t, end, line) => tag == Some(t) && scanptr == end && linenum == line
    {
      hide Spec.ScanAttrs, Spec.ScanSpaces, Keyword, LevelOf;
      var s := src.text;
      var line := linenum;
      if At(s, p) != '<' {
        return None;
      }
      var q := p + 1;
      var commentish := Commentish(s, p);
      if commentish {
        q := ScanSpaces(p + 4);
      }
      var k := Keyword(s, q);
      if k.None? {
        linenum := line;
        return None;
      }
      q := q + |Word(k.value)|;
      tag := ScanTagRest(commentish, k.value, q);
      if tag.None? {
        linenum := line;
      }
    }

    method ScanTagRest(commentish: bool, k: Kind, q: nat) returns (tag: Option<Tag>)
      requires q <= |src.text|
      modifies this`scanptr, this`linenum
      ensures match Spec.ScanTagRest(src, loopDepth, commentish, k, q, old(linenum))
              case NoTag => tag == None
              case Found(t, end, line) => tag == Some(t) && scanptr == end && linenum == line
    {
      hide Spec.ScanAttrs, Spec.ScanSpaces, BuildTag, TagEnd;
      scanptr := q;
      var r := ScanSpaces(q);
      if HasName(k) && r == q {
        return None;
      }
      var a := Attrs(r, linenum, None, None, None);
      if r != q {
        a := ScanAttrs(k, r);
      }
      var end := TagEnd(src.text, a.p, commentish, Container(k));
      if end.None? {
        return None;
      }
      scanptr := end.value;
      return BuildTag(src, loopDepth, k, a);
    }

    method Return(tag: Option<Tag>)
      modifies this`curtag, this`log
      ensures State() == Returning(old(State()), tag)
    {
      curtag := tag;
      if tag.Some? {
        log := log + [tag.value];
      }
    }

    /** The loop of scan() over the text, up to the first comment or tag, or the end. */
    method FindStop() returns (i: nat, tag: Option<Tag>, comment: bool)
      requires scanptr <= |src.text| && nexttag.None?
      modifies this`scanptr, this`linenum, this`error, this`unclosed
      ensures error == (old(error) || Spec.FindStop(src, loopDepth, old(scanptr), old(linenum), false).bad)
      ensures unclosed == (old(unclosed) || Spec.FindStop(src, loopDepth, old(scanptr), old(linenum), false).bad)
      ensures match Spec.FindStop(src, loopDepth, old(scanptr), old(linenum), false)
              case AtEnd(j, line, _) => i == j && linenum == line && tag == None && !comment && scanptr == j
              case AtComment(j, end, line, _) => i == j && linenum == line && tag == None && comment && scanptr == end
              case AtTag(j, t, end, line, _) =>
                i == j && linenum == line && tag == Some(t) && !comment && scanptr == end
    {
      hide Spec.ScanTag, Spec.ScanComment;
      var s := src.text;
      var p := scanptr;
      ghost var bad := false;
      i := p;
      while i < |s|
        invariant p <= i <= |s|
        invariant error == (old(error) || bad) && unclosed == (old(unclosed) || bad)
        invariant Spec.FindStop(src, loopDepth, i, linenum, bad)
               == Spec.FindStop(src, loopDepth, p, old(linenum), false)
      {
        if s[i] == '\n' {
          linenum := linenum + 1;
        }
        if s[i] == '<' {
          ghost var c := Spec.ScanComment(s, i, linenum);
          var found := ScanComment(i);
          if found {
            return i, None, true;
          }
          bad := bad || c.Unterminated?;
          tag := ScanTag(i);
          if tag.Some? {
            return i, tag, false;
          }
        }
        i := i + 1;
      }
      scanptr := i;
      return i, None, false;
    }

    /** One call of scan(). */
    method Scan()
      requires scanptr <= |src.text|
      modifies this`scanptr, this`nexttag, this`curtag, this`linenum, this`error, this`unclosed, this`log
      ensures State() == Grammar.Scan(src, old(State()))
      decreases |src.text| - scanptr
    {
      hide Spec.FindStop;
      if nexttag.Some? {
        var tag := nexttag;
        nexttag := None;
        Return(tag);
        return;
      }
      var p := scanptr;
      var i, tag, comment := FindStop();
      if i == p && comment {
        Scan();
        return;
      }
      if i > p {
        nexttag := tag;
        Return(Some(Text(src.text[p..i])));
      } else {
        Return(tag);
      }
    }

    // -------------------------------------------------------------- the parser

    method ParseList(stop: Stops) returns (nodes: seq<Node>)
      requires Within(src, State())
      modifies this
      ensures (nodes, State()) == Grammar.ParseList(src, old(State()), stop)
      decreases Weight(src, Grammar.Scan(src, State())), 3
    {
      hide Grammar.Scan, ParseItems;
      Scan();
      ghost var st := State();
      nodes := [];
      assert nodes + ParseItems(src, st, stop).0 == ParseItems(src, st, stop).0;
      while curtag.Some? && !(Terminator(curtag.value) && Stopping(stop, curtag.value))
        invariant Within(src, State()) && Weight(src, State()) <= Weight(src, st)
        invariant ParseItems(src, st, stop).0 == nodes + ParseItems(src, State(), stop).0
        invariant ParseItems(src, st, stop).1 == ParseItems(src, State(), stop).1
        decreases Weight(src, State())
      {
        var items := ParseItem(stop);
        nodes := nodes + items;
      }
      AtListEnd(src, State(), stop);
      assert nodes + [] == nodes;
    }

    /** One round of the loop in parselist(): the nodes it links, none for a stray terminator. */
    method ParseItem(stop: Stops) returns (items: seq<Node>)
      requires Within(src, State()) && curtag.Some? && !(Terminator(curtag.value) && Stopping(stop, curtag.value))
      modifies this
      ensures Within(src, State()) && Weight(src, State()) < Weight(src, old(State()))
      ensures ParseItems(src, old(State()), stop).0 == items + ParseItems(src, State(), stop).0
      ensures ParseItems(src, old(State()), stop).1 == ParseItems(src, State(), stop).1
      decreases Weight(src, State()), 2
    {
      hide Grammar.Scan, Grammar.ParseIf, Grammar.ParseLoop;
      var tag := curtag.value;
      if Terminator(tag) {
        error := true;
        Scan();
        items := if tag.Elsif? then [Cond(tag, [], [])] else [];
      } else if tag.If? {
        var node := ParseIf(stop);
        items := [node];
      } else if tag.Loop? {
        var node := ParseLoop(stop);
        items := [node];
      } else {
        Scan();
        items := [Leaf(tag)];
      }
    }

    /** At a TMPL_IF, and again at each TMPL_ELSIF that continues it. */
    method ParseIf(stop: Stops) returns (node: Node)
      requires Within(src, State()) && curtag.Some?
      modifies this
      ensures (node, State()) == Grammar.ParseIf(src, old(State()), stop)
      decreases Weight(src, State()), 0
    {
      hide Grammar.Scan, Grammar.ParseList;
      var tag := curtag.value;
      var tbranch := ParseList(IfStops(stop));
      if curtag.Some? && curtag.value.Elsif? {
        var elsif := ParseIf(stop);
        return Cond(tag, tbranch, [elsif]);
      }
      var fbranch := [];
      if curtag == Some(Else) {
        fbranch := ParseList(ElseStops(stop));
      }
      if curtag == Some(EndIf) {
        Scan();
      } else {
        error := true;
      }
      return Cond(tag, tbranch, fbranch);
    }

    method ParseLoop(stop: Stops) returns (node: Node)
      requires Within(src, State()) && curtag.Some?
      modifies this
      ensures (node, State()) == Grammar.ParseLoop(src, old(State()), stop)
      decreases Weight(src, State()), 0
    {
      hide Grammar.Scan, Grammar.ParseList;
      var tag := curtag.value;
      loopDepth := loopDepth + 1;
      var body := ParseList(LoopStops(stop));
      loopDepth := loopDepth - 1;
      if curtag == Some(EndLoop) {
        Scan();
      } else {
        error := true;
      }
      return Block(tag, body);
    }
  }

  lemma AtListEnd(src: Source, st: St, stop: Stops)
    requires Within(src, st)
    requires st.cur.Some? ==> Terminator(st.cur.value) && Stopping(stop, st.cur.value)
    ensures ParseItems(src, st, stop) == ([], st)
  {
  }
}
