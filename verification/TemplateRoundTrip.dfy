/** Parse trees and tag sequences determine each other. */
module TemplateRoundTrip {
  import opened Prelude
  import opened TemplateScanner
  import opened TemplateParser
  import opened TemplateTrees

  // ---------------------------------------------------------------- trees as tag sequences

  /** The tag sequence of a tree, terminators included. */
  function Flatten(nodes: seq<Node>): seq<Tag>
    decreases nodes, 0
  {
    if nodes == [] then [] else Flat(nodes[0]) + Flatten(nodes[1..])
  }

  function Flat(node: Node): (tags: seq<Tag>)
    ensures tags != [] && tags[0] == node.tag
    decreases node, 0
  {
    match node
    case Leaf(tag) => [tag]
    case Cond(tag, tbranch, fbranch) => [tag] + Flatten(tbranch) + FlatElse(fbranch)
    case Block(tag, body) => [tag] + Flatten(body) + [EndLoop]
  }

  predicate Chained(fbranch: seq<Node>) {
    |fbranch| == 1 && fbranch[0].Cond? && fbranch[0].tag.Elsif?
  }

  function FlatElse(fbranch: seq<Node>): (tags: seq<Tag>)
    ensures tags != [] && (tags[0].Elsif? || tags[0] == Else || tags[0] == EndIf)
    decreases fbranch, 1
  {
    if fbranch == [] then [EndIf]
    else if Chained(fbranch) then Flat(fbranch[0])
    else [Else] + Flatten(fbranch) + [EndIf]
  }

  predicate Simple(tag: Tag) {
    tag.Text? || tag.Var? || tag.Include? || tag.Break? || tag.Continue?
  }

  /** Trees of correct templates: a TMPL_ELSIF only continues a cond. */
  predicate Proper(nodes: seq<Node>) {
    forall i | 0 <= i < |nodes| :: ProperNode(nodes[i], false)
  }

  predicate ProperNode(node: Node, elsif: bool) {
    match node
    case Leaf(tag) => !elsif && Simple(tag)
    case Cond(tag, tbranch, fbranch) =>
      && (if elsif then tag.Elsif? else tag.If?)
      && (forall i | 0 <= i < |tbranch| :: ProperNode(tbranch[i], false))
      && (if Chained(fbranch) then ProperNode(fbranch[0], true)
          else forall i | 0 <= i < |fbranch| :: ProperNode(fbranch[i], false))
    case Block(tag, body) =>
      !elsif && tag.Loop? && forall i | 0 <= i < |body| :: ProperNode(body[i], false)
  }

  /** A tag sequence without the TMPL_ELSE of empty else parts. */
  function DropEmptyElse(tags: seq<Tag>): seq<Tag> {
    if tags == [] then []
    else if |tags| >= 2 && tags[0] == Else && tags[1] == EndIf then DropEmptyElse(tags[1..])
    else [tags[0]] + DropEmptyElse(tags[1..])
  }

  lemma FlattenCons(node: Node, rest: seq<Node>)
    ensures Flatten([node] + rest) == Flat(node) + Flatten(rest)
  {
  }

  lemma {:induction false} DropAppend(a: seq<Tag>, b: seq<Tag>)
    requires a != [] && b != [] ==> a[|a| - 1] != Else || b[0] != EndIf
    ensures DropEmptyElse(a + b) == DropEmptyElse(a) + DropEmptyElse(b)
  {
    if a == [] {
      assert a + b == b;
    } else if |a| == 1 {
      assert a + b == [a[0]] + b && (a + b)[1..] == b;
      assert a[1..] == [];
    } else {
      assert (a + b)[1..] == a[1..] + b;
      DropAppend(a[1..], b);
    }
  }

  lemma {:induction false} DropKeepsSome(a: seq<Tag>)
    requires a != []
    ensures DropEmptyElse(a) != []
  {
    if |a| >= 2 { DropKeepsSome(a[1..]); }
  }

  // ---------------------------------------------------------------- from text to tree and back to tags

  /** A piece of a tag sequence that makes up whole items. */
  predicate Whole(seg: seq<Tag>) {
    seg != [] ==> !Terminator(seg[0]) && seg[|seg| - 1] != Else
  }

  lemma ScanMoves(src: Source, st: St)
    requires Within(src, st) && Logged(st)
    ensures Logged(Scan(src, st))
    ensures Consumed(Scan(src, st)) == Consumed(st) + (if st.cur.Some? then [st.cur.value] else [])
    ensures st.error ==> Scan(src, st).error
  {
    hide Scan;
    ScanConsumes(src, st);
    if st.cur.Some? { assert st.log == Consumed(st) + [st.cur.value]; }
  }

  lemma {:induction false} ItemsFlatten(src: Source, st: St, stop: Stops) returns (seg: seq<Tag>)
    requires Within(src, st) && Logged(st) && !ParseItems(src, st, stop).1.error
    ensures var (nodes, st') := ParseItems(src, st, stop);
            && Logged(st') && Consumed(st') == Consumed(st) + seg
            && Whole(seg) && Proper(nodes) && DropEmptyElse(seg) == Flatten(nodes)
    decreases Weight(src, st), 2
  {
    hide Scan, Consumed, Flat;
    seg := [];
    if st.cur.Some? && !Terminator(st.cur.value) {
      var (node, st1) := ParseNode(src, st, stop);
      var (rest, st2) := ParseItems(src, st1, stop);
      var first := NodeFlattens(src, st, stop);
      var others := ItemsFlatten(src, st1, stop);
      seg := first + others;
      DropAppend(first, others);
      FlattenCons(node, rest);
    }
  }

  lemma {:induction false} NodeFlattens(src: Source, st: St, stop: Stops) returns (seg: seq<Tag>)
    requires Within(src, st) && Logged(st) && st.cur.Some? && !Terminator(st.cur.value)
    requires !ParseNode(src, st, stop).1.error
    ensures var (node, st') := ParseNode(src, st, stop);
            && Logged(st') && Consumed(st') == Consumed(st) + seg
            && Whole(seg) && seg != [] && ProperNode(node, false) && DropEmptyElse(seg) == Flat(node)
    decreases Weight(src, st), 1
  {
    hide Scan, Consumed, Closing;
    var tag := st.cur.value;
    if tag.If? {
      seg := IfFlattens(src, st, stop);
    } else if tag.Loop? {
      seg := LoopFlattens(src, st, stop);
    } else {
      ScanMoves(src, st);
      seg := [tag];
      assert seg[1..] == [];
    }
  }

  lemma {:induction false} ListFlattens(src: Source, st: St, stop: Stops) returns (seg: seq<Tag>)
    requires Within(src, st) && Logged(st) && st.cur.Some? && !ParseList(src, st, stop).1.error
    ensures var (nodes, st') := ParseList(src, st, stop);
            && Logged(st') && Consumed(st') == Consumed(st) + [st.cur.value] + seg
            && Whole(seg) && Proper(nodes) && DropEmptyElse(seg) == Flatten(nodes)
    decreases Weight(src, Scan(src, st)), 3
  {
    hide Scan, Consumed;
    ScanMoves(src, st);
    seg := ItemsFlatten(src, Scan(src, st), stop);
  }

  /** One statement's tags: its own tag, its list, and what follows the list. */
  lemma DropStatement(tag: Tag, list: seq<Tag>, tail: seq<Tag>)
    requires tag != Else && Whole(list)
    ensures DropEmptyElse([tag] + list + tail) == [tag] + DropEmptyElse(list) + DropEmptyElse(tail)
  {
    DropAppend(list, tail);
    DropAppend([tag], list + tail);
    assert [tag] + list + tail == [tag] + (list + tail);
    assert [tag][1..] == [];
  }

  lemma DropElsePart(list: seq<Tag>, nodes: seq<Node>)
    requires Whole(list) && Proper(nodes) && DropEmptyElse(list) == Flatten(nodes)
    ensures DropEmptyElse([Else] + list + [EndIf]) == FlatElse(nodes)
  {
    assert [EndIf][1..] == [];
    assert [Else][1..] == [];
    if list == [] {
      assert nodes == [];
      assert [Else] + list + [EndIf] == [Else, EndIf];
      assert [Else, EndIf][1..] == [EndIf];
    } else {
      DropKeepsSome(list);
      DropAppend(list, [EndIf]);
      DropAppend([Else], list + [EndIf]);
      assert [Else] + list + [EndIf] == [Else] + (list + [EndIf]);
    }
  }

  lemma {:induction false} IfFlattens(src: Source, st: St, stop: Stops) returns (seg: seq<Tag>)
    requires Within(src, st) && Logged(st) && st.cur.Some? && (st.cur.value.If? || st.cur.value.Elsif?)
    requires !ParseIf(src, st, stop).1.error
    ensures ParseIf(src, st, stop).0.tag == st.cur.value
    ensures var (node, st') := ParseIf(src, st, stop);
            && Logged(st') && Consumed(st') == Consumed(st) + seg
            && seg != [] && seg[0] == st.cur.value && seg[|seg| - 1] != Else
            && ProperNode(node, st.cur.value.Elsif?) && DropEmptyElse(seg) == Flat(node)
    decreases Weight(src, st), 0
  {
    hide Scan, Consumed, Flatten, DropEmptyElse, FlatElse, ParseList, Closing;
    var tag := st.cur.value;
    var (tbranch, st1) := ParseList(src, st, IfStops(stop));
    var list := ListFlattens(src, st, IfStops(stop));
    if st1.cur.Some? && st1.cur.value.Elsif? {
      var more := IfFlattens(src, st1, stop);
      seg := [tag] + list + more;
      DropStatement(tag, list, more);
      ChainedElse(ParseIf(src, st1, stop).0);
    } else {
      var more := ElseFlattens(src, st1, stop);
      seg := [tag] + list + more;
      DropStatement(tag, list, more);
    }
  }

  lemma ChainedElse(node: Node)
    requires node.Cond? && node.tag.Elsif?
    ensures Chained([node]) && FlatElse([node]) == Flat(node)
  {
  }

  /** From the end of the last list of a condition to the end of the statement. */
  lemma {:induction false} ElseFlattens(src: Source, st1: St, stop: Stops) returns (seg: seq<Tag>)
    requires Within(src, st1) && Logged(st1)
    requires var (_, st2) := if st1.cur == Some(Else) then ParseList(src, st1, ElseStops(stop)) else ([], st1);
             !Closing(src, st2, EndIf).error
    ensures var (fbranch, st2) := if st1.cur == Some(Else) then ParseList(src, st1, ElseStops(stop)) else ([], st1);
            var st' := Closing(src, st2, EndIf);
            && Logged(st') && Consumed(st') == Consumed(st1) + seg
            && seg != [] && seg[|seg| - 1] != Else
            && Proper(fbranch) && !Chained(fbranch) && DropEmptyElse(seg) == FlatElse(fbranch)
    decreases Weight(src, st1), 4
  {
    hide Scan, Consumed, Flatten, DropEmptyElse, FlatElse, ParseList;
    if st1.cur == Some(Else) {
      var (fbranch, st2) := ParseList(src, st1, ElseStops(stop));
      var others := ListFlattens(src, st1, ElseStops(stop));
      ScanMoves(src, st2);
      seg := [Else] + others + [EndIf];
      DropElsePart(others, fbranch);
    } else {
      ScanMoves(src, st1);
      seg := [EndIf];
      DropSingle(EndIf);
      NoElse();
    }
  }

  lemma NoElse()
    ensures FlatElse([]) == [EndIf] && Flatten([]) == []
  {
  }

  lemma ClosingMoves(src: Source, st: St, tag: Tag)
    requires Within(src, st) && Logged(st)
    ensures var st' := Closing(src, st, tag);
            st.error ==> st'.error
    ensures var st' := Closing(src, st, tag);
            !st'.error ==> Logged(st') && Consumed(st') == Consumed(st) + [tag]
  {
    hide Scan, Consumed;
    ScanMoves(src, st);
  }

  lemma DropSingle(tag: Tag)
    ensures DropEmptyElse([tag]) == [tag]
  {
    assert [tag][1..] == [];
  }

  lemma {:induction false} LoopFlattens(src: Source, st: St, stop: Stops) returns (seg: seq<Tag>)
    requires Within(src, st) && Logged(st) && st.cur.Some? && st.cur.value.Loop?
    requires !ParseLoop(src, st, stop).1.error
    ensures var (node, st') := ParseLoop(src, st, stop);
            && Logged(st') && Consumed(st') == Consumed(st) + seg
            && seg != [] && seg[0] == st.cur.value && seg[|seg| - 1] != Else
            && ProperNode(node, false) && DropEmptyElse(seg) == Flat(node)
    decreases Weight(src, st), 0
  {
    hide Scan, Flatten, DropEmptyElse, ParseList, Closing, Consumed;
    var tag := st.cur.value;
    var inner := st.(depth := st.depth + 1);
    SameConsumed(st, inner);
    var (body, st1) := ParseList(src, inner, LoopStops(stop));
    var st2 := st1.(depth := st1.depth - 1);
    var list := ListFlattens(src, inner, LoopStops(stop));
    SameConsumed(st1, st2);
    ClosingMoves(src, st2, EndLoop);
    seg := [tag] + list + [EndLoop];
    DropSingle(EndLoop);
    DropStatement(tag, list, [EndLoop]);
  }

  /** A template parsed without error: its tree is proper, and writing the tree out as tags gives
      the scanned tags back, up to the TMPL_ELSE of empty else parts. */
  lemma ErrorFreeParseFlattens(src: Source)
    requires !ParseTemplate(src).1.error
    ensures var (nodes, st) := ParseTemplate(src); Proper(nodes) && Flatten(nodes) == DropEmptyElse(st.log)
  {
    hide Scan;
    ScanMoves(src, Start());
    var seg := ItemsFlatten(src, Scan(src, Start()), NO_STOPS);
    assert Consumed(Scan(src, Start())) == [] && [] + seg == seg;
  }

  // ---------------------------------------------------------------- from tree to tags and back to tree

  function DepthAfter(depth: nat, tag: Tag): nat {
    if tag.Loop? then depth + 1
    else if tag.EndLoop? && depth > 0 then depth - 1
    else depth
  }

  /** The current tag and the tags still to be scanned are exactly `tags`, when the loop depth
      follows the loops. */
  predicate Reads(src: Source, st: St, tags: seq<Tag>)
    requires Within(src, st)
    decreases |tags|
  {
    && !st.error
    && if tags == [] then st.cur.None?
       else st.cur == Some(tags[0]) && Reads(src, Scan(src, st.(depth := DepthAfter(st.depth, tags[0]))), tags[1..])
  }

  lemma {:induction false} ItemsRead(src: Source, st: St, stop: Stops, nodes: seq<Node>, more: seq<Tag>)
    requires Within(src, st) && Proper(nodes) && Reads(src, st, Flatten(nodes) + more)
    requires more != [] ==> Terminator(more[0]) && Stopping(stop, more[0])
    ensures var (nodes', st') := ParseItems(src, st, stop);
            nodes' == nodes && Reads(src, st', more) && st'.depth == st.depth
    decreases nodes, 1
  {
    hide Scan, Flat;
    if nodes == [] {
      assert [] + more == more;
    } else {
      var node, rest := nodes[0], nodes[1..];
      assert Flatten(nodes) + more == Flat(node) + (Flatten(rest) + more);
      assert (Flat(node) + (Flatten(rest) + more))[0] == node.tag;
      NodeReads(src, st, stop, node, Flatten(rest) + more);
      ItemsRead(src, ParseNode(src, st, stop).1, stop, rest, more);
      assert nodes == [node] + rest;
    }
  }

  lemma {:induction false} NodeReads(src: Source, st: St, stop: Stops, node: Node, more: seq<Tag>)
    requires Within(src, st) && ProperNode(node, false) && Reads(src, st, Flat(node) + more)
    ensures st.cur.Some? && !Terminator(st.cur.value)
    ensures var (node', st') := ParseNode(src, st, stop);
            node' == node && Reads(src, st', more) && st'.depth == st.depth
    decreases node, 1
  {
    hide Scan;
    match node
    case Leaf(tag) =>
      assert (Flat(node) + more)[1..] == more;
      assert st.(depth := DepthAfter(st.depth, tag)) == st;
    case Cond(_, _, _) => IfReads(src, st, stop, node, more);
    case Block(_, _) => LoopReads(src, st, stop, node, more);
  }

  lemma {:induction false} IfReads(src: Source, st: St, stop: Stops, node: Node, more: seq<Tag>)
    requires Within(src, st) && node.Cond? && ProperNode(node, node.tag.Elsif?) && Reads(src, st, Flat(node) + more)
    ensures st.cur == Some(node.tag)
    ensures var (node', st') := ParseIf(src, st, stop);
            node' == node && Reads(src, st', more) && st'.depth == st.depth
    decreases node, 0
  {
    hide Scan, Flatten, FlatElse, ParseItems;
    var Cond(tag, tbranch, fbranch) := node;
    var tail := FlatElse(fbranch) + more;
    assert Flat(node) + more == [tag] + (Flatten(tbranch) + tail);
    ReadsOne(src, st, tag, Flatten(tbranch) + tail);
    ItemsRead(src, Scan(src, st), IfStops(stop), tbranch, tail);
    var st1 := ParseList(src, st, IfStops(stop)).1;
    if Chained(fbranch) {
      assert FlatElse(fbranch) == Flat(fbranch[0]) by { ChainedFlat(fbranch); }
      IfReads(src, st1, stop, fbranch[0], more);
      assert [fbranch[0]] == fbranch;
    } else {
      ElseReads(src, st1, stop, fbranch, more);
    }
  }

  lemma ChainedFlat(fbranch: seq<Node>)
    requires Chained(fbranch)
    ensures FlatElse(fbranch) == Flat(fbranch[0])
  {
  }

  /** A tag that leaves the loop depth alone. */
  lemma ReadsOne(src: Source, st: St, tag: Tag, more: seq<Tag>)
    requires Within(src, st) && Reads(src, st, [tag] + more) && !tag.Loop? && !tag.EndLoop?
    ensures st.cur == Some(tag) && !st.error && Reads(src, Scan(src, st), more)
  {
    hide Scan;
    assert st.(depth := DepthAfter(st.depth, tag)) == st;
    assert ([tag] + more)[1..] == more;
  }

  lemma {:induction false} ElseReads(src: Source, st1: St, stop: Stops, fbranch: seq<Node>, more: seq<Tag>)
    requires Within(src, st1) && Proper(fbranch) && !Chained(fbranch) && Reads(src, st1, FlatElse(fbranch) + more)
    ensures st1.cur.Some? && !st1.cur.value.Elsif?
    ensures var (fbranch', st2) := if st1.cur == Some(Else) then ParseList(src, st1, ElseStops(stop)) else ([], st1);
            var st' := Closing(src, st2, EndIf);
            fbranch' == fbranch && Reads(src, st', more) && st'.depth == st1.depth
    decreases fbranch, 2
  {
    hide Scan, Flatten, ParseItems;
    if fbranch == [] {
      ReadsOne(src, st1, EndIf, more);
    } else {
      var rest := Flatten(fbranch) + ([EndIf] + more);
      assert FlatElse(fbranch) + more == [Else] + rest;
      ReadsOne(src, st1, Else, rest);
      ItemsRead(src, Scan(src, st1), ElseStops(stop), fbranch, [EndIf] + more);
      ReadsOne(src, ParseList(src, st1, ElseStops(stop)).1, EndIf, more);
    }
  }

  lemma {:induction false} LoopReads(src: Source, st: St, stop: Stops, node: Node, more: seq<Tag>)
    requires Within(src, st) && node.Block? && ProperNode(node, false) && Reads(src, st, Flat(node) + more)
    ensures st.cur == Some(node.tag)
    ensures var (node', st') := ParseLoop(src, st, stop);
            node' == node && Reads(src, st', more) && st'.depth == st.depth
    decreases node, 0
  {
    hide Scan, Flatten;
    var Block(tag, body) := node;
    var inner := st.(depth := st.depth + 1);
    var tail := [EndLoop] + more;
    assert Flat(node) + more == [tag] + (Flatten(body) + tail);
    ItemsRead(src, Scan(src, inner), LoopStops(stop), body, tail);
    assert tail[1..] == more;
  }

  /** The parser is complete: a template that scans to the tags of a proper tree parses to that
      tree, without error. */
  lemma ProperTreesAreParsed(src: Source, nodes: seq<Node>)
    requires Proper(nodes) && Reads(src, Scan(src, Start()), Flatten(nodes))
    ensures var (nodes', st) := ParseTemplate(src); nodes' == nodes && !st.error && st.depth == 0
  {
    hide Scan;
    assert Flatten(nodes) + [] == Flatten(nodes);
    ItemsRead(src, Scan(src, Start()), NO_STOPS, nodes, []);
  }
}
