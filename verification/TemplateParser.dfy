/** The main scanner function and the recursive descent parser of the template engine. */
module TemplateParser {
  import opened Prelude
  import opened TemplateScanner

  // ---------------------------------------------------------------- scan()

  /** The scanner and parser variables of a template. `log` lists every text and tag that
      scan() has returned, oldest first; the last one is still `cur` unless cur is None, and
      `unclosed` whether a comment without end was met. */
  datatype St = St(
    pos: nat,
    next: Option<Tag>,
    cur: Option<Tag>,
    line: nat,
    error: bool,
    unclosed: bool,
    depth: nat,
    log: seq<Tag>)

  function Start(): St { St(0, None, None, 1, false, false, 0, []) }

  function Returning(st: St, tag: Option<Tag>): St {
    st.(cur := tag, log := if tag.Some? then st.log + [tag.value] else st.log)
  }

  function Moved(st: St, pos: nat, line: nat, bad: bool): St {
    st.(pos := pos, line := line, error := st.error || bad, unclosed := st.unclosed || bad)
  }

  /** One call of scan(). */
  function Scan(src: Source, st: St): (r: St)
    requires st.pos <= |src.text|
    ensures st.pos <= r.pos <= |src.text|
    ensures r.depth == st.depth && (st.error ==> r.error) && (st.unclosed ==> r.unclosed)
    ensures r.log == st.log + (if r.cur.Some? then [r.cur.value] else [])
    ensures r.cur.Some? ==> Left(src, r) < Left(src, st)
    ensures Left(src, r) <= Left(src, st)
    ensures r.next.Some? ==> r.cur.Some? && r.cur.value.Text? && !r.next.value.Text?
    ensures r.cur.None? ==> r.pos == |src.text|
    decreases |src.text| - st.pos
  {
    if st.next.Some? then Returning(st.(next := None), st.next)
    else
      var text := if st.pos < FindStop(src, st.depth, st.pos, st.line, false).i
                  then Some(Text(src.text[st.pos..FindStop(src, st.depth, st.pos, st.line, false).i])) else None;
      match FindStop(src, st.depth, st.pos, st.line, false)
      case AtEnd(i, line, bad) => Returning(Moved(st, i, line, bad), text)
      case AtComment(i, end, line, bad) =>
        if text.None? then Scan(src, Moved(st, end, line, bad))
        else Returning(Moved(st, end, line, bad), text)
      case AtTag(i, tag, end, line, bad) =>
        var st1 := Moved(st, end, line, bad);
        if text.Some? then Returning(st1.(next := Some(tag)), text) else Returning(st1, Some(tag))
  }

  /** What is left to scan; a saved tag counts. */
  function Left(src: Source, st: St): nat {
    (if st.pos <= |src.text| then 2 * (|src.text| - st.pos) else 0) + (if st.next.Some? then 1 else 0)
  }

  // ---------------------------------------------------------------- the parser

  /** A parse tree node with its tag; `next` pointers become sequences. A cond's fbranch holds
      the single cond of a following TMPL_ELSIF, or the list after TMPL_ELSE. */
  datatype Node =
    | Leaf(tag: Tag)
    | Cond(tag: Tag, tbranch: seq<Node>, fbranch: seq<Node>)
    | Block(tag: Tag, body: seq<Node>)

  /** The bitmap of terminators that end a list. */
  datatype Stops = Stops(elsif: bool, els: bool, endif: bool, endloop: bool)

  const NO_STOPS := Stops(false, false, false, false)

  function IfStops(stop: Stops): Stops { stop.(elsif := true, els := true, endif := true) }

  function ElseStops(stop: Stops): Stops { stop.(endif := true) }

  function LoopStops(stop: Stops): Stops { stop.(endloop := true) }

  predicate Terminator(tag: Tag) { tag.Elsif? || tag.Else? || tag.EndIf? || tag.EndLoop? }

  predicate Stopping(stop: Stops, tag: Tag) {
    || (tag.Elsif? && stop.elsif) || (tag.Else? && stop.els)
    || (tag.EndIf? && stop.endif) || (tag.EndLoop? && stop.endloop)
  }

  function Weight(src: Source, st: St): nat {
    Left(src, st) + (if st.cur.Some? then 1 else 0)
  }

  predicate Within(src: Source, st: St) { st.pos <= |src.text| }

  function ParseList(src: Source, st: St, stop: Stops): (r: (seq<Node>, St))
    requires Within(src, st)
    ensures Within(src, r.1) && Weight(src, r.1) <= Weight(src, Scan(src, st))
    ensures (st.error ==> r.1.error) && r.1.depth == st.depth
    decreases Weight(src, Scan(src, st)), 3
  {
    ParseItems(src, Scan(src, st), stop)
  }

  /** The loop of parselist(), at the current tag. */
  function ParseItems(src: Source, st: St, stop: Stops): (r: (seq<Node>, St))
    requires Within(src, st)
    ensures Within(src, r.1) && Weight(src, r.1) <= Weight(src, st)
    ensures (st.error ==> r.1.error) && r.1.depth == st.depth
    ensures r.1.cur.Some? ==> Stopping(stop, r.1.cur.value)
    decreases Weight(src, st), 2
  {
    if st.cur.None? then ([], st)
    else
      var tag := st.cur.value;
      if Terminator(tag) then
        if Stopping(stop, tag) then ([], st)
        else
          var (rest, st2) := ParseItems(src, Scan(src, st.(error := true)), stop);
          (if tag.Elsif? then [Cond(tag, [], [])] + rest else rest, st2)
      else
        var (node, st1) := ParseNode(src, st, stop);
        var (rest, st2) := ParseItems(src, st1, stop);
        ([node] + rest, st2)
  }

  function ParseNode(src: Source, st: St, stop: Stops): (r: (Node, St))
    requires Within(src, st) && st.cur.Some?
    ensures Within(src, r.1) && Weight(src, r.1) < Weight(src, st)
    ensures (st.error ==> r.1.error) && r.1.depth == st.depth
    decreases Weight(src, st), 1
  {
    match st.cur.value
    case If(_, _) => ParseIf(src, st, stop)
    case Loop(_) => ParseLoop(src, st, stop)
    case tag => (Leaf(tag), Scan(src, st))
  }

  /** At a TMPL_IF, or at a TMPL_ELSIF that continues one. */
  function ParseIf(src: Source, st: St, stop: Stops): (r: (Node, St))
    requires Within(src, st) && st.cur.Some?
    ensures Within(src, r.1) && Weight(src, r.1) < Weight(src, st)
    ensures (st.error ==> r.1.error) && r.1.depth == st.depth
    decreases Weight(src, st), 0
  {
    var (tbranch, st1) := ParseList(src, st, IfStops(stop));
    if st1.cur.Some? && st1.cur.value.Elsif? then
      var (elsif, st2) := ParseIf(src, st1, stop);
      (Cond(st.cur.value, tbranch, [elsif]), st2)
    else
      var (fbranch, st2) := if st1.cur == Some(Else) then ParseList(src, st1, ElseStops(stop)) else ([], st1);
      (Cond(st.cur.value, tbranch, fbranch), Closing(src, st2, EndIf))
  }

  function ParseLoop(src: Source, st: St, stop: Stops): (r: (Node, St))
    requires Within(src, st) && st.cur.Some?
    ensures Within(src, r.1) && Weight(src, r.1) < Weight(src, st)
    ensures (st.error ==> r.1.error) && r.1.depth == st.depth
    decreases Weight(src, st), 0
  {
    var (body, st1) := ParseList(src, st.(depth := st.depth + 1), LoopStops(stop));
    (Block(st.cur.value, body), Closing(src, st1.(depth := st1.depth - 1), EndLoop))
  }

  /** After a statement: its closing tag is skipped, or the template is in error. */
  function Closing(src: Source, st: St, tag: Tag): (r: St)
    requires Within(src, st)
    ensures Within(src, r) && Weight(src, r) <= Weight(src, st)
    ensures (st.error ==> r.error) && r.depth == st.depth
  {
    if st.cur == Some(tag) then Scan(src, st) else st.(error := true)
  }

  /** parselist(t, 0) on a fresh template. */
  function ParseTemplate(src: Source): (seq<Node>, St) {
    ParseList(src, Start(), NO_STOPS)
  }
}
