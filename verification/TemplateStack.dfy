/** The statements that are open while a template is parsed, as a stack: what the recursive descent
    with its inherited bitmaps of terminators amounts to, stray and missing tags included. */
module TemplateStack {
  import opened Prelude
  import opened TemplateScanner
  import opened TemplateParser
  import opened TemplateTrees

  /** The parts of statements a tag can stand in, the innermost first. */
  datatype Open = Then | Otherwise | Round

  /** The tag continues or closes this part. */
  predicate Takes(open: Open, tag: Tag) {
    match open
    case Then => tag.Elsif? || tag.Else? || tag.EndIf?
    case Otherwise => tag.EndIf?
    case Round => tag.EndLoop?
  }

  /** The stack from the innermost part that takes the tag. */
  function Unwound(stack: seq<Open>, tag: Tag): seq<Open> {
    if stack == [] || Takes(stack[0], tag) then stack else Unwound(stack[1..], tag)
  }

  /** A terminator leaves the parts inside the one it belongs to; one that belongs to none is skipped. */
  function Step(stack: seq<Open>, tag: Tag): seq<Open> {
    if tag.If? then [Then] + stack
    else if tag.Loop? then [Round] + stack
    else if !Terminator(tag) || Unwound(stack, tag) == [] then stack
    else
      var rest := Unwound(stack, tag);
      if tag.Elsif? then rest else if tag.Else? then [Otherwise] + rest[1..] else rest[1..]
  }

  /** The tag is stray, or leaves a part before its end. */
  predicate Faulty(stack: seq<Open>, tag: Tag) {
    Terminator(tag) && (stack == [] || !Takes(stack[0], tag))
  }

  function Init<T>(s: seq<T>): seq<T>
    requires s != []
  {
    s[..|s| - 1]
  }

  function Last<T>(s: seq<T>): T
    requires s != []
  {
    s[|s| - 1]
  }

  lemma InitLast<T>(s: seq<T>, x: T)
    ensures Init(s + [x]) == s && Last(s + [x]) == x
  {
  }

  function StackAfter(tags: seq<Tag>): seq<Open> {
    if tags == [] then [] else Step(StackAfter(Init(tags)), Last(tags))
  }

  predicate Faults(tags: seq<Tag>) {
    tags != [] && (Faults(Init(tags)) || Faulty(StackAfter(Init(tags)), Last(tags)))
  }

  /** The loops around a place. */
  function Loops(stack: seq<Open>): nat {
    if stack == [] then 0 else Loops(stack[1..]) + (if stack[0].Round? then 1 else 0)
  }

  // ---------------------------------------------------------------- bitmaps

  /** The bitmap of terminators that ends a list in these parts. */
  function StopsOf(stack: seq<Open>): Stops {
    if stack == [] then NO_STOPS
    else
      match stack[0]
      case Then => IfStops(StopsOf(stack[1..]))
      case Otherwise => ElseStops(StopsOf(stack[1..]))
      case Round => LoopStops(StopsOf(stack[1..]))
  }

  lemma {:induction false} StopsAtOpen(stack: seq<Open>, tag: Tag)
    ensures Stopping(StopsOf(stack), tag) <==> Terminator(tag) && Unwound(stack, tag) != []
  {
    if stack != [] { StopsAtOpen(stack[1..], tag); }
  }

  lemma Inside(open: Open, stack: seq<Open>)
    ensures ([open] + stack)[1..] == stack
    ensures StopsOf([open] + stack) ==
              match open
              case Then => IfStops(StopsOf(stack))
              case Otherwise => ElseStops(StopsOf(stack))
              case Round => LoopStops(StopsOf(stack))
    ensures Loops([open] + stack) == Loops(stack) + (if open.Round? then 1 else 0)
  {
    assert ([open] + stack)[1..] == stack;
  }

  /** A tag that a part takes. */
  lemma TakenHere(open: Open, stack: seq<Open>, tag: Tag)
    requires Takes(open, tag)
    ensures Step([open] + stack, tag) ==
              if tag.Elsif? then [open] + stack else if tag.Else? then [Otherwise] + stack else stack
    ensures !Faulty([open] + stack, tag)
  {
    assert ([open] + stack)[1..] == stack;
  }

  /** A terminator that ends the list of a part but is not its own: it is taken further out. */
  lemma TakenOutside(open: Open, stack: seq<Open>, tag: Tag)
    requires !Takes(open, tag) && Stopping(StopsOf([open] + stack), tag)
    ensures Step([open] + stack, tag) == Step(stack, tag) && Faulty([open] + stack, tag)
    ensures Stopping(StopsOf(stack), tag)
  {
    StopsAtOpen([open] + stack, tag);
    StopsAtOpen(stack, tag);
    assert ([open] + stack)[1..] == stack;
  }

  /** A terminator that does not end the list is stray. */
  lemma TakenNowhere(stack: seq<Open>, tag: Tag)
    requires Terminator(tag) && !Stopping(StopsOf(stack), tag)
    ensures Step(stack, tag) == stack && Faulty(stack, tag)
  {
    StopsAtOpen(stack, tag);
  }

  // ---------------------------------------------------------------- the parser's state and the stack

  /** The tags left open `found`; the parser goes on in `stack`, because the current tag is taken
      there, if at all. */
  predicate LeftOver(found: seq<Open>, stack: seq<Open>, cur: Option<Tag>) {
    && |found| >= |stack| && found[|found| - |stack|..] == stack
    && (cur.Some? ==> Step(found, cur.value) == Step(stack, cur.value))
    && (cur.Some? && |found| > |stack| ==> Faulty(found, cur.value))
  }

  predicate Tracks(st: St, stack: seq<Open>) {
    var found := StackAfter(Consumed(st));
    && Logged(st) && st.depth == Loops(stack) && LeftOver(found, stack, st.cur)
    && (st.error <==> st.unclosed || Faults(Consumed(st)) || |found| > |stack|)
  }

  /** All that was scanned is dealt with. */
  predicate Ready(st: St, stack: seq<Open>) {
    && Logged(st) && st.depth == Loops(stack) && StackAfter(st.log) == stack
    && (st.error <==> st.unclosed || Faults(st.log))
  }

  /** The current tag is dealt with, and a fault in it recorded. */
  function Dealt(st: St, stack: seq<Open>): St
    requires st.cur.Some?
  {
    st.(error := st.error || Faulty(stack, st.cur.value), depth := Loops(Step(stack, st.cur.value)))
  }

  lemma TagDealtWith(st: St, stack: seq<Open>)
    requires Tracks(st, stack) && st.cur.Some?
    ensures Ready(Dealt(st, stack), Step(stack, st.cur.value))
  {
    hide Step, Faulty, Loops;
    var found := StackAfter(Consumed(st));
    assert Init(st.log) == Consumed(st) && Last(st.log) == st.cur.value;
    if |found| == |stack| { assert found == stack; }
  }

  lemma SuffixOf(s: seq<Open>, open: Open, stack: seq<Open>)
    requires |s| > |stack| && s[|s| - |stack| - 1..] == [open] + stack
    ensures s[|s| - |stack|..] == stack
  {
    assert s[|s| - |stack|..] == s[|s| - |stack| - 1..][1..];
  }

  lemma LeftOverOutside(found: seq<Open>, open: Open, stack: seq<Open>, cur: Option<Tag>)
    requires LeftOver(found, [open] + stack, cur)
    requires cur.Some? ==> !Takes(open, cur.value) && Stopping(StopsOf([open] + stack), cur.value)
    ensures LeftOver(found, stack, cur) && |found| > |stack|
  {
    hide Step, Faulty, StopsOf;
    var inner := [open] + stack;
    SuffixOf(found, open, stack);
    if cur.Some? {
      TakenOutside(open, stack, cur.value);
      if |found| == |inner| { assert found == inner; }
    }
  }

  /** A list has ended at a tag that is not the statement's own, or at the end of the template. */
  lemma PartGivenUp(st: St, open: Open, stack: seq<Open>)
    requires Tracks(st, [open] + stack)
    requires st.cur.Some? ==> !Takes(open, st.cur.value) && Stopping(StopsOf([open] + stack), st.cur.value)
    ensures Tracks(st.(error := true, depth := Loops(stack)), stack)
  {
    hide Step, Faulty, Loops, Faults, LeftOver, StopsOf, Consumed;
    SameConsumed(st, st.(error := true, depth := Loops(stack)));
    LeftOverOutside(StackAfter(Consumed(st)), open, stack, st.cur);
  }
}
