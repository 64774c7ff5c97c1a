/** What parsing gives for every template, correct or not. */
module TemplateTrees {
  import opened Prelude
  import opened TemplateScanner
  import opened TemplateParser

  // ---------------------------------------------------------------- every tag is linked once, in order

  /** The tags of a tree in the order freetag() and walk() meet them. */
  function InOrder(nodes: seq<Node>): seq<Tag> {
    if nodes == [] then [] else NodeTags(nodes[0]) + InOrder(nodes[1..])
  }

  function NodeTags(node: Node): seq<Tag> {
    match node
    case Leaf(tag) => [tag]
    case Cond(tag, tbranch, fbranch) => [tag] + InOrder(tbranch) + InOrder(fbranch)
    case Block(tag, body) => [tag] + InOrder(body)
  }

  /** Tags that newtag() allocates; the others share the reusable node. */
  predicate Allocated(tag: Tag) { !(tag.Else? || tag.EndIf? || tag.EndLoop?) }

  function Heap(tags: seq<Tag>): seq<Tag> {
    if tags == [] then [] else (if Allocated(tags[0]) then [tags[0]] else []) + Heap(tags[1..])
  }

  /** Everything scanned but the tag that is still current. */
  function Consumed(st: St): seq<Tag> {
    if st.cur.Some? && st.log != [] then st.log[..|st.log| - 1] else st.log
  }

  predicate Logged(st: St) {
    st.cur.Some? ==> st.log != [] && st.log[|st.log| - 1] == st.cur.value
  }

  lemma {:induction false} HeapAppend(a: seq<Tag>, b: seq<Tag>)
    ensures Heap(a + b) == Heap(a) + Heap(b)
  {
    if a == [] {
      assert a + b == b;
    } else {
      hide Heap, Allocated;
      var s := a + b;
      assert s[0] == a[0] && s[1..] == a[1..] + b;
      HeapAppend(a[1..], b);
      HeapFirst(s);
      HeapFirst(a);
      Associates(if Allocated(a[0]) then [a[0]] else [], Heap(a[1..]), Heap(b));
    }
  }

  lemma HeapFirst(tags: seq<Tag>)
    requires tags != []
    ensures Heap(tags) == (if Allocated(tags[0]) then [tags[0]] else []) + Heap(tags[1..])
  {
  }

  lemma Associates<T>(a: seq<T>, b: seq<T>, c: seq<T>)
    ensures (a + b) + c == a + (b + c)
  {
  }

  lemma ScanConsumes(src: Source, st: St)
    requires Within(src, st) && Logged(st)
    ensures Logged(Scan(src, st)) && Consumed(Scan(src, st)) == st.log
    ensures st.cur.Some? ==> Heap(st.log) == Heap(Consumed(st)) + Heap([st.cur.value])
    ensures st.cur.None? ==> Heap(st.log) == Heap(Consumed(st))
  {
    var r := Scan(src, st);
    if st.cur.Some? {
      assert st.log == Consumed(st) + [st.cur.value];
      HeapAppend(Consumed(st), [st.cur.value]);
    }
  }

  lemma InOrderCons(node: Node, rest: seq<Node>)
    ensures InOrder([node] + rest) == NodeTags(node) + InOrder(rest)
  {
  }

  lemma SameConsumed(st: St, st': St)
    requires st'.cur == st.cur && st'.log == st.log
    ensures Consumed(st') == Consumed(st)
  {
  }

  lemma SingleTag(tag: Tag)
    ensures Heap([tag]) == (if Allocated(tag) then [tag] else [])
    ensures NodeTags(Cond(tag, [], [])) == [tag]
    ensures InOrder([]) == []
  {
    assert [tag][1..] == [];
  }

  lemma SingleNode(node: Node)
    ensures InOrder([node]) == NodeTags(node)
  {
    assert [node] + [] == [node];
    InOrderCons(node, []);
  }

  /** Whatever the template, also with unclosed or stray tags: the nodes of the parse tree, in
      order, are the allocated texts and tags that scan() returned, in order. */
  lemma {:induction false} ItemsLinkAll(src: Source, st: St, stop: Stops)
    requires Within(src, st) && Logged(st)
    ensures var (nodes, st') := ParseItems(src, st, stop);
            Logged(st') && Heap(Consumed(st')) == Heap(Consumed(st)) + InOrder(nodes)
    decreases Weight(src, st), 2
  {
    hide Scan, InOrder, Heap, Consumed, Closing;
    SingleTag(Else);
    if st.cur.Some? {
      var tag := st.cur.value;
      if Terminator(tag) && !Stopping(stop, tag) {
        var bad := st.(error := true);
        var st1 := Scan(src, bad);
        SameConsumed(st, bad);
        ScanConsumes(src, bad);
        ItemsLinkAll(src, st1, stop);
        SingleTag(tag);
        if tag.Elsif? { InOrderCons(Cond(tag, [], []), ParseItems(src, st1, stop).0); }
      } else if !Terminator(tag) {
        NodeLinksAll(src, st, stop);
        var (node, st1) := ParseNode(src, st, stop);
        ItemsLinkAll(src, st1, stop);
        InOrderCons(node, ParseItems(src, st1, stop).0);
      }
    }
  }

  lemma {:induction false} NodeLinksAll(src: Source, st: St, stop: Stops)
    requires Within(src, st) && Logged(st) && st.cur.Some? && !Terminator(st.cur.value)
    ensures var (node, st') := ParseNode(src, st, stop);
            Logged(st') && Heap(Consumed(st')) == Heap(Consumed(st)) + NodeTags(node)
    decreases Weight(src, st), 1
  {
    hide Scan, InOrder, Heap, Consumed;
    var tag := st.cur.value;
    if tag.If? {
      IfLinksAll(src, st, stop);
    } else if tag.Loop? {
      LoopLinksAll(src, st, stop);
    } else {
      ScanConsumes(src, st);
      SingleTag(tag);
    }
  }

  lemma {:induction false} ListLinksAll(src: Source, st: St, stop: Stops)
    requires Within(src, st) && Logged(st)
    ensures var (nodes, st') := ParseList(src, st, stop);
            Logged(st') && Heap(Consumed(st')) == Heap(st.log) + InOrder(nodes)
    decreases Weight(src, Scan(src, st)), 3
  {
    hide Scan, InOrder, Heap, Consumed;
    ScanConsumes(src, st);
    ItemsLinkAll(src, Scan(src, st), stop);
  }

  lemma ClosingLinks(src: Source, st: St, tag: Tag)
    requires Within(src, st) && Logged(st) && !Allocated(tag)
    ensures var st' := Closing(src, st, tag); Logged(st') && Heap(Consumed(st')) == Heap(Consumed(st))
  {
    hide Scan;
    ScanConsumes(src, st);
  }

  lemma {:induction false} IfLinksAll(src: Source, st: St, stop: Stops)
    requires Within(src, st) && Logged(st) && st.cur.Some? && Allocated(st.cur.value)
    ensures var (node, st') := ParseIf(src, st, stop);
            Logged(st') && Heap(Consumed(st')) == Heap(Consumed(st)) + NodeTags(node)
    decreases Weight(src, st), 0
  {
    hide Scan, InOrder, Heap, Consumed, Closing;
    var tag := st.cur.value;
    ScanConsumes(src, st);
    SingleTag(tag);
    SingleTag(Else);
    var (tbranch, st1) := ParseList(src, st, IfStops(stop));
    ListLinksAll(src, st, IfStops(stop));
    if st1.cur.Some? && st1.cur.value.Elsif? {
      IfLinksAll(src, st1, stop);
      SingleNode(ParseIf(src, st1, stop).0);
    } else if st1.cur == Some(Else) {
      ScanConsumes(src, st1);
      ListLinksAll(src, st1, ElseStops(stop));
      ClosingLinks(src, ParseList(src, st1, ElseStops(stop)).1, EndIf);
    } else {
      ClosingLinks(src, st1, EndIf);
    }
  }

  lemma {:induction false} LoopLinksAll(src: Source, st: St, stop: Stops)
    requires Within(src, st) && Logged(st) && st.cur.Some? && Allocated(st.cur.value)
    ensures var (node, st') := ParseLoop(src, st, stop);
            Logged(st') && Heap(Consumed(st')) == Heap(Consumed(st)) + NodeTags(node)
    decreases Weight(src, st), 0
  {
    hide Scan, InOrder, Heap, Closing;
    ScanConsumes(src, st);
    SingleTag(st.cur.value);
    var inner := st.(depth := st.depth + 1);
    ListLinksAll(src, inner, LoopStops(stop));
    var (body, st1) := ParseList(src, inner, LoopStops(stop));
    ClosingLinks(src, st1.(depth := st1.depth - 1), EndLoop);
  }

  /** For the whole template: nothing that was allocated is lost, linked twice or reordered. */
  lemma EveryTagLinkedOnce(src: Source)
    ensures var (nodes, st) := ParseTemplate(src); st.cur.None? && InOrder(nodes) == Heap(st.log)
  {
    ListLinksAll(src, Start(), NO_STOPS);
  }

  // ---------------------------------------------------------------- every tag is legal where it is linked

  /** Attribute values that the scanner can read: on one line, not with both kinds of quotes. */
  predicate ValueOk(v: string) {
    && (forall i | 0 <= i < |v| :: v[i] != '\0' && v[i] != '\n')
    && ('"' in v ==> '\'' !in v)
  }

  predicate OptionOk(v: Option<string>) { v.Some? ==> ValueOk(v.value) }

  /** A tag at loop depth `depth`: a known format function, an include depth below the limit,
      and a level that names one of the loops around it. */
  predicate Legal(src: Source, depth: nat, tag: Tag) {
    match tag
    case Text(_) => true
    case Var(name, dflt, fmt) =>
      ValueOk(name) && OptionOk(dflt) && OptionOk(fmt) && (fmt.Some? ==> fmt.value in src.fmts)
    case If(name, testval) => ValueOk(name) && OptionOk(testval)
    case Elsif(name, testval) => ValueOk(name) && OptionOk(testval)
    case Include(filename) => ValueOk(filename) && src.includeDepth < MAX_INCLUDE_DEPTH
    case Loop(name) => ValueOk(name)
    case Break(level) => 1 <= level <= depth
    case Continue(level) => 1 <= level <= depth
    case _ => true
  }

  predicate NodesLegal(src: Source, depth: nat, nodes: seq<Node>)
    decreases nodes, 1
  {
    forall i | 0 <= i < |nodes| :: NodeLegal(src, depth, nodes[i])
  }

  predicate NodeLegal(src: Source, depth: nat, node: Node)
    decreases node, 0
  {
    && Legal(src, depth, node.tag)
    && match node
       case Leaf(_) => true
       case Cond(_, tbranch, fbranch) =>
         && (forall i | 0 <= i < |tbranch| :: NodeLegal(src, depth, tbranch[i]))
         && (forall i | 0 <= i < |fbranch| :: NodeLegal(src, depth, fbranch[i]))
       case Block(_, body) => forall i | 0 <= i < |body| :: NodeLegal(src, depth + 1, body[i])
  }

  lemma {:induction false} QuotedText(s: CString, p: nat, quote: char)
    requires p <= |s|
    ensures forall i | p <= i < QuotedEnd(s, p, quote) :: s[i] != quote && s[i] != '\n'
    decreases |s| - p
  {
    if p < |s| { QuotedText(s, p + 1, quote); }
  }

  lemma {:induction false} BareText(s: CString, p: nat)
    requires p <= |s|
    ensures forall i | p <= i < BareEnd(s, p) :: IsAlnum(s[i]) || s[i] == '.' || s[i] == '-'
    decreases |s| - p
  {
    if p < |s| { BareText(s, p + 1); }
  }

  lemma QuotedValueOk(s: CString, p: nat)
    requires p < |s| && (s[p] == '"' || s[p] == '\'')
    ensures ValueOk(s[p + 1..QuotedEnd(s, p + 1, s[p])])
  {
    QuotedText(s, p + 1, s[p]);
  }

  lemma BareValueOk(s: CString, p: nat)
    requires p <= |s|
    ensures ValueOk(s[p..BareEnd(s, p)])
  {
    BareText(s, p);
  }

  lemma HitIsOk(s: CString, word: string, p: nat, line: nat)
    requires p <= |s| && word != ""
    ensures var a := ScanAttr(s, word, p, line); a.Hit? ==> ValueOk(a.value)
  {
    hide ScanSpaces, QuotedEnd, BareEnd, ValueOk;
    if Matches(s, p, word) {
      var c := ScanSpaces(s, p + |word|, line);
      if At(s, c.p) == '=' {
        var d := ScanSpaces(s, c.p + 1, c.line);
        if At(s, d.p) == '"' || At(s, d.p) == '\'' {
          QuotedValueOk(s, d.p);
        } else {
          BareValueOk(s, d.p);
        }
      }
    }
  }

  predicate AttrsOk(a: Attrs) { OptionOk(a.name) && OptionOk(a.fmt) && OptionOk(a.value) }

  lemma {:induction false} ScannedAttrsOk(s: CString, k: Kind, a: Attrs)
    requires a.p <= |s| && AttrsOk(a)
    ensures AttrsOk(ScanAttrs(s, k, a))
    decreases Unset(k, a)
  {
    hide ScanAttr, ScanSpaces, ValueOk, ValueWord;
    var n := TryAttr(s, HasName(k) && a.name.None?, "name", a.p, a.line);
    HitIsOk(s, "name", a.p, a.line);
    if n.Hit? {
      var c := ScanSpaces(s, n.end, n.line);
      ScannedAttrsOk(s, k, a.(p := c.p, line := c.line, name := Some(n.value)));
    } else {
      var f := TryAttr(s, k == KVar && a.fmt.None?, "fmt", a.p, n.line);
      HitIsOk(s, "fmt", a.p, n.line);
      if f.Hit? {
        var c := ScanSpaces(s, f.end, f.line);
        ScannedAttrsOk(s, k, a.(p := c.p, line := c.line, fmt := Some(f.value)));
      } else {
        var wanted := k in {KVar, KIf, KElsif, KBreak, KContinue} && a.value.None?;
        WordNotEmpty(k);
        var v := TryAttr(s, wanted, ValueWord(k), a.p, f.line);
        HitIsOk(s, ValueWord(k), a.p, f.line);
        if v.Hit? {
          var c := ScanSpaces(s, v.end, v.line);
          ScannedAttrsOk(s, k, a.(p := c.p, line := c.line, value := Some(v.value)));
        }
      }
    }
  }

  lemma WordNotEmpty(k: Kind)
    ensures ValueWord(k) != ""
  {
  }

  lemma FoundIsLegal(src: Source, depth: nat, p: nat, line: nat)
    ensures var r := ScanTag(src, depth, p, line); r.Found? ==> Legal(src, depth, r.tag)
  {
    hide ScanAttrs, TagEnd, NameStart, Keyword, LevelOf, ValueOk, ScanSpaces;
    var s := src.text;
    if At(s, p) == '<' {
      var c := NameStart(s, p, line);
      var k := Keyword(s, c.p);
      if k.Some? {
        var q := c.p + |Word(k.value)|;
        var d := ScanSpaces(s, q, c.line);
        ScannedAttrsOk(s, k.value, Attrs(d.p, d.line, None, None, None));
      }
    }
  }

  lemma {:induction false} StopIsLegal(src: Source, depth: nat, i: nat, line: nat, bad: bool)
    requires i <= |src.text|
    ensures var r := FindStop(src, depth, i, line, bad); r.AtTag? ==> Legal(src, depth, r.tag)
    decreases |src.text| - i
  {
    hide ScanTag, ScanComment, Legal;
    if i < |src.text| {
      var line1 := if src.text[i] == '\n' then line + 1 else line;
      StopIsLegal(src, depth, i + 1, line1, bad);
      FoundIsLegal(src, depth, i, line1);
      var c := ScanComment(src.text, i, line1);
      if c.Unterminated? {
        StopIsLegal(src, depth, i + 1, c.line, true);
        FoundIsLegal(src, depth, i, c.line);
      }
    }
  }

  /** The look-ahead tag was scanned at the depth at which it will be linked. */
  predicate Lookahead(src: Source, st: St) {
    && (st.cur.Some? ==> Legal(src, st.depth, st.cur.value))
    && (st.next.Some? ==> Legal(src, st.depth, st.next.value) && st.cur.Some? && st.cur.value.Text?)
  }

  /** Scanning may start at another depth than before only when no tag is saved. */
  lemma {:induction false} ScanLookahead(src: Source, st: St)
    requires Within(src, st)
    requires st.next.Some? ==> Legal(src, st.depth, st.next.value)
    ensures Lookahead(src, Scan(src, st))
    decreases |src.text| - st.pos
  {
    hide FindStop, Legal;
    assert forall text :: Legal(src, st.depth, Text(text)) by { TextsAreLegal(src, st.depth); }
    if st.next.None? {
      StopIsLegal(src, st.depth, st.pos, st.line, false);
      var r := FindStop(src, st.depth, st.pos, st.line, false);
      if r.AtComment? && r.i == st.pos {
        ScanLookahead(src, Moved(st, r.end, r.line, r.bad));
      }
    }
  }

  lemma TextsAreLegal(src: Source, depth: nat)
    ensures forall text :: Legal(src, depth, Text(text))
  {
  }

  lemma {:induction false} ItemsLegal(src: Source, st: St, stop: Stops)
    requires Within(src, st) && Lookahead(src, st)
    ensures var (nodes, st') := ParseItems(src, st, stop);
            NodesLegal(src, st.depth, nodes) && Lookahead(src, st') && st'.depth == st.depth
    decreases Weight(src, st), 2
  {
    hide Scan, Legal;
    if st.cur.Some? {
      var tag := st.cur.value;
      if Terminator(tag) && !Stopping(stop, tag) {
        ScanLookahead(src, st.(error := true));
        ItemsLegal(src, Scan(src, st.(error := true)), stop);
      } else if !Terminator(tag) {
        if tag.If? {
          IfLegal(src, st, stop);
        } else if tag.Loop? {
          LoopLegal(src, st, stop);
        } else {
          ScanLookahead(src, st);
        }
        ItemsLegal(src, ParseNode(src, st, stop).1, stop);
      }
    }
  }

  lemma {:induction false} ListLegal(src: Source, st: St, stop: Stops)
    requires Within(src, st) && (st.next.Some? ==> Legal(src, st.depth, st.next.value))
    ensures var (nodes, st') := ParseList(src, st, stop);
            NodesLegal(src, st.depth, nodes) && Lookahead(src, st') && st'.depth == st.depth
    decreases Weight(src, Scan(src, st)), 3
  {
    hide Scan, Legal;
    ScanLookahead(src, st);
    ItemsLegal(src, Scan(src, st), stop);
  }

  lemma {:induction false} IfLegal(src: Source, st: St, stop: Stops)
    requires Within(src, st) && Lookahead(src, st) && st.cur.Some? && !st.cur.value.Text?
    ensures var (node, st') := ParseIf(src, st, stop);
            NodeLegal(src, st.depth, node) && Lookahead(src, st') && st'.depth == st.depth
    decreases Weight(src, st), 0
  {
    hide Scan, Legal;
    var (tbranch, st1) := ParseList(src, st, IfStops(stop));
    ListLegal(src, st, IfStops(stop));
    if st1.cur.Some? && st1.cur.value.Elsif? {
      IfLegal(src, st1, stop);
    } else {
      if st1.cur == Some(Else) { ListLegal(src, st1, ElseStops(stop)); }
      var (fbranch, st2) := if st1.cur == Some(Else) then ParseList(src, st1, ElseStops(stop)) else ([], st1);
      if st2.cur == Some(EndIf) { ScanLookahead(src, st2); }
    }
  }

  lemma {:induction false} LoopLegal(src: Source, st: St, stop: Stops)
    requires Within(src, st) && Lookahead(src, st) && st.cur.Some? && !st.cur.value.Text?
    ensures var (node, st') := ParseLoop(src, st, stop);
            NodeLegal(src, st.depth, node) && Lookahead(src, st') && st'.depth == st.depth
    decreases Weight(src, st), 0
  {
    hide Scan;
    var inner := st.(depth := st.depth + 1);
    ListLegal(src, inner, LoopStops(stop));
    var (body, st1) := ParseList(src, inner, LoopStops(stop));
    assert st1.cur.Some? ==> !st1.cur.value.Text?;
    var st2 := st1.(depth := st1.depth - 1);
    if st2.cur == Some(EndLoop) { ScanLookahead(src, st2); }
  }

  /** Despite the one-tag look-ahead, and whatever is unclosed or stray: each tag of the parse
      tree is legal at the number of loops around it, so a break or continue always has a level
      between 1 and that number, and there is no include at the include limit. */
  lemma ParsedTagsAreLegal(src: Source)
    ensures var (nodes, st) := ParseTemplate(src); NodesLegal(src, 0, nodes) && st.depth == 0
  {
    ListLegal(src, Start(), NO_STOPS);
  }
}
