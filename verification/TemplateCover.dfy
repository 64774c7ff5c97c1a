/** Comments, texts and tags, in scan order, cover the template without a gap or an overlap. */
module TemplateCover {
  import opened Prelude
  import opened TemplateScanner
  import opened TemplateParser
  import opened TemplateTrees
  import opened TemplateStack
  import opened TemplateLocal
  import opened TemplateLines

  // ---------------------------------------------------------------- what stands at a place

  /** s[a..b] runs from "<*" to the first "*>" behind it. */
  predicate IsComment(s: CString, a: nat, b: nat) {
    && a + 4 <= b <= |s|
    && s[a] == '<' && s[a + 1] == '*' && s[b - 2] == '*' && s[b - 1] == '>'
    && forall k | a + 2 <= k < b - 2 :: !(s[k] == '*' && s[k + 1] == '>')
  }

  /** The tag at i, on whatever line it is tried. */
  ghost predicate TagAt(src: Source, depth: nat, i: nat, tag: Tag, end: nat) {
    forall line :: var r := ScanTag(src, depth, i, line); r.Found? && r.tag == tag && r.end == end
  }

  /** Neither a comment with an end nor an acceptable tag starts at i, on whatever line it is tried. */
  ghost predicate OnlyText(src: Source, depth: nat, i: nat) {
    (forall b :: !IsComment(src.text, i, b)) && forall line :: ScanTag(src, depth, i, line).NoTag?
  }

  lemma FoundIsTagAt(src: Source, depth: nat, i: nat, line: nat)
    requires ScanTag(src, depth, i, line).Found?
    ensures TagAt(src, depth, i, ScanTag(src, depth, i, line).tag, ScanTag(src, depth, i, line).end)
  {
    hide ScanTag;
    forall m: nat
      ensures var r := ScanTag(src, depth, i, m);
              && r.Found? && r.tag == ScanTag(src, depth, i, line).tag && r.end == ScanTag(src, depth, i, line).end
    {
      TagOnAnyLine(src, depth, i, line, m);
    }
  }

  lemma NoTagIsOnlyText(src: Source, depth: nat, i: nat, line: nat)
    requires ScanTag(src, depth, i, line).NoTag? && forall b :: !IsComment(src.text, i, b)
    ensures OnlyText(src, depth, i)
  {
    hide ScanTag, IsComment;
    forall m: nat ensures ScanTag(src, depth, i, m).NoTag? {
      TagOnAnyLine(src, depth, i, line, m);
    }
  }

  lemma {:induction false} CommentFound(s: CString, p: nat, line: nat)
    requires p <= |s|
    ensures var c := FindCommentEnd(s, p, line);
            && (c.Comment? ==> s[c.end - 2] == '*' && s[c.end - 1] == '>'
                               && forall k | p <= k < c.end - 2 :: !(s[k] == '*' && s[k + 1] == '>'))
            && (c.Unterminated? ==> forall k | p <= k < |s| - 1 :: !(s[k] == '*' && s[k + 1] == '>'))
    decreases |s| - p
  {
    if p < |s| && !(s[p] == '*' && At(s, p + 1) == '>') {
      CommentFound(s, p + 1, if s[p] == '\n' then line + 1 else line);
    }
  }

  lemma CommentExact(s: CString, p: nat, line: nat)
    requires p <= |s|
    ensures var c := ScanComment(s, p, line);
            && (c.Comment? ==> IsComment(s, p, c.end))
            && (!c.Comment? ==> forall b :: !IsComment(s, p, b))
            && (c.Unterminated? <==> StartsComment(s, p) && !c.Comment?)
  {
    hide FindCommentEnd;
    if At(s, p) == '<' && At(s, p + 1) == '*' { CommentFound(s, p + 2, line); }
  }

  /** Why a text ended where it did, and why not earlier; an error is noted for a comment in it that
      has no end, and for nothing else. */
  lemma {:induction false} StopExact(src: Source, depth: nat, i: nat, line: nat, bad: bool)
    requires i <= |src.text|
    ensures var f := FindStop(src, depth, i, line, bad);
            && (forall k | i <= k < f.i :: OnlyText(src, depth, k))
            && (f.AtComment? ==> IsComment(src.text, f.i, f.end))
            && (f.AtTag? ==> TagAt(src, depth, f.i, f.tag, f.end))
            && (f.bad <==> bad || exists k | i <= k < f.i :: StartsComment(src.text, k))
            && Wall(src.text, f.i)
    decreases |src.text| - i
  {
    hide ScanTag, ScanComment, OnlyText, TagAt, IsComment, StartsComment;
    var s := src.text;
    if i < |s| {
      var line1 := if s[i] == '\n' then line + 1 else line;
      CommentExact(s, i, line1);
      var c := ScanComment(s, i, line1);
      if s[i] != '<' {
        PlainCharacter(src, depth, i, line1);
        NoTagIsOnlyText(src, depth, i, line1);
        StopExact(src, depth, i + 1, line1, bad);
      } else if !c.Comment? {
        var line2 := if c.Unterminated? then c.line else line1;
        if c.Unterminated? { NoTagInComment(src, depth, i, line2); }
        if ScanTag(src, depth, i, line2).NoTag? {
          NoTagIsOnlyText(src, depth, i, line2);
          StopExact(src, depth, i + 1, line2, bad || c.Unterminated?);
        } else {
          FoundIsTagAt(src, depth, i, line2);
        }
      }
    }
  }

  lemma PlainCharacter(src: Source, depth: nat, i: nat, line: nat)
    requires i < |src.text| && src.text[i] != '<'
    ensures ScanTag(src, depth, i, line).NoTag? && !StartsComment(src.text, i)
    ensures forall b :: !IsComment(src.text, i, b)
  {
  }

  // ---------------------------------------------------------------- the pieces of a template

  /** A comment, or a text or tag that scan() returns, with the characters it consists of. */
  datatype Piece = Skipped(text: string) | Mark(text: string, tag: Tag)

  function Joined(pieces: seq<Piece>): string {
    if pieces == [] then "" else Joined(Init(pieces)) + Last(pieces).text
  }

  function TagsOf(pieces: seq<Piece>): seq<Tag> {
    if pieces == [] then []
    else TagsOf(Init(pieces)) + (if Last(pieces).Mark? then [Last(pieces).tag] else [])
  }

  /** The piece that starts at a, where the tags before it leave `depth` loops open. A text is not
      empty, and goes on to the next comment or tag, or to the end. */
  ghost predicate PieceAt(src: Source, a: nat, depth: nat, piece: Piece) {
    var s, b := src.text, a + |piece.text|;
    && b <= |s| && s[a..b] == piece.text
    && match piece
       case Skipped(_) => IsComment(s, a, b)
       case Mark(text, tag) =>
         if !tag.Text? then TagAt(src, depth, a, tag, b)
         else
           && tag.text == text != ""
           && (forall k | a <= k < b :: OnlyText(src, depth, k))
           && (b < |s| ==> !OnlyText(src, depth, b))
  }

  /** Each piece starts where the one before it ends, at the loop depth that the tags before it make. */
  ghost predicate Covers(src: Source, pieces: seq<Piece>) {
    pieces != [] ==>
      && Covers(src, Init(pieces))
      && PieceAt(src, |Joined(Init(pieces))|, Loops(StackAfter(TagsOf(Init(pieces)))), Last(pieces))
  }

  predicate HoldsComment(text: string) {
    exists k | 0 <= k < |text| - 1 :: text[k] == '<' && text[k + 1] == '*'
  }

  /** A text holds the start of a comment. */
  predicate Unclosed(pieces: seq<Piece>) {
    pieces != [] &&
    (Unclosed(Init(pieces)) || (Last(pieces).Mark? && Last(pieces).tag.Text? && HoldsComment(Last(pieces).text)))
  }

  /** Line ends counted again, for the comments without end that start in texts. */
  function Recounted(s: CString, pieces: seq<Piece>): nat {
    if pieces == [] then 0
    else
      var a, x := |Joined(Init(pieces))|, Last(pieces);
      Recounted(s, Init(pieces))
      + if x.Mark? && x.tag.Text? && a + |x.text| <= |s| then Recount(s, a, a + |x.text|) else 0
  }

  lemma OneMorePiece(src: Source, pieces: seq<Piece>, x: Piece)
    requires Covers(src, pieces) && PieceAt(src, |Joined(pieces)|, Loops(StackAfter(TagsOf(pieces))), x)
    ensures Covers(src, pieces + [x]) && Joined(pieces + [x]) == Joined(pieces) + x.text
    ensures TagsOf(pieces + [x]) == TagsOf(pieces) + (if x.Mark? then [x.tag] else [])
    ensures Unclosed(pieces + [x]) <==> Unclosed(pieces) || (x.Mark? && x.tag.Text? && HoldsComment(x.text))
    ensures Recounted(src.text, pieces + [x]) == Recounted(src.text, pieces)
              + if x.Mark? && x.tag.Text? && |Joined(pieces)| + |x.text| <= |src.text|
                then Recount(src.text, |Joined(pieces)|, |Joined(pieces)| + |x.text|) else 0
  {
    hide PieceAt, HoldsComment, Loops, StackAfter, Recount;
    InitLast(pieces, x);
  }

  /** The pieces up to the scanner's position; a saved tag is a piece already. */
  ghost predicate Covered(src: Source, st: St, pieces: seq<Piece>) {
    && Within(src, st) && Covers(src, pieces) && Joined(pieces) == src.text[..st.pos]
    && TagsOf(pieces) == st.log + (if st.next.Some? then [st.next.value] else [])
    && (st.unclosed <==> Unclosed(pieces))
    && st.line == 1 + Newlines(src.text, 0, st.pos) + Recounted(src.text, pieces)
    && (st.next.Some? ==> st.cur.Some? && st.cur.value.Text? && !st.next.value.Text?)
  }

  // ---------------------------------------------------------------- one call of scan()

  lemma TextHoldsComment(s: CString, a: nat, b: nat)
    requires a <= b <= |s| && Wall(s, b)
    ensures HoldsComment(s[a..b]) <==> exists k | a <= k < b :: StartsComment(s, k)
  {
    var text := s[a..b];
    if HoldsComment(text) {
      var k :| 0 <= k < |text| - 1 && text[k] == '<' && text[k + 1] == '*';
      assert StartsComment(s, a + k);
    }
    if k :| a <= k < b && StartsComment(s, k) {
      assert text[k - a] == '<' && text[k - a + 1] == '*';
    }
  }

  lemma StopIsNotText(src: Source, depth: nat, f: Stop)
    requires f.AtComment? ==> IsComment(src.text, f.i, f.end)
    requires f.AtTag? ==> TagAt(src, depth, f.i, f.tag, f.end)
    requires !f.AtEnd?
    ensures !OnlyText(src, depth, f.i)
  {
    if f.AtTag? { assert ScanTag(src, depth, f.i, 0).Found?; }
  }

  lemma Prefixes(s: string, a: nat, b: nat)
    requires a <= b <= |s|
    ensures s[..a] + s[a..b] == s[..b]
  {
  }

  /** The scanner's state behind the text that ends at a stop, ... */
  function BehindText(src: Source, st: St, f: Stop): St
    requires st.pos <= f.i <= |src.text|
  {
    st.(pos := f.i, unclosed := st.unclosed || f.bad, log := st.log + [Text(src.text[st.pos..f.i])],
        line := st.line + Newlines(src.text, st.pos, f.i) + Recount(src.text, st.pos, f.i))
  }

  /** ... and behind the comment or tag at a stop. */
  function BehindStop(src: Source, st: St, f: Stop): St
    requires !f.AtEnd? && f.i <= f.end <= |src.text|
  {
    st.(pos := f.end, log := if f.AtTag? then st.log + [f.tag] else st.log,
        line := st.line + Newlines(src.text, f.i, f.end))
  }

  /** The text that ends at a stop. */
  lemma TextPiece(src: Source, st: St, pieces: seq<Piece>, f: Stop)
    requires Covered(src, st, pieces) && st.next.None? && st.depth == Loops(StackAfter(st.log))
    requires f == FindStop(src, st.depth, st.pos, st.line, false)
    ensures f.i > st.pos ==> var tag := Text(src.text[st.pos..f.i]);
                             Covered(src, BehindText(src, st, f), pieces + [Mark(tag.text, tag)])
    ensures f.i == st.pos ==> !f.bad
  {
    hide FindStop, OnlyText, IsComment, TagAt, HoldsComment, StartsComment, StackAfter, Loops, Covers, Joined, TagsOf;
    hide Unclosed, Newlines, Recount, Recounted;
    StopExact(src, st.depth, st.pos, st.line, false);
    assert |Joined(pieces)| == st.pos && TagsOf(pieces) == st.log;
    if f.i > st.pos {
      Prefixes(src.text, st.pos, f.i);
      TextHoldsComment(src.text, st.pos, f.i);
      NewlinesSplit(src.text, 0, st.pos, f.i);
      if !f.AtEnd? { StopIsNotText(src, st.depth, f); }
      OneMorePiece(src, pieces, Mark(src.text[st.pos..f.i], Text(src.text[st.pos..f.i])));
    }
  }

  lemma LoopsAfterText(log: seq<Tag>, text: string)
    ensures StackAfter(log + [Text(text)]) == StackAfter(log)
  {
    InitLast(log, Text(text));
  }

  function StopMark(src: Source, f: Stop): Piece
    requires !f.AtEnd? && f.i <= f.end <= |src.text|
  {
    if f.AtTag? then Mark(src.text[f.i..f.end], f.tag) else Skipped(src.text[f.i..f.end])
  }

  /** The comment or tag at a stop. */
  lemma StopPiece(src: Source, st: St, pieces: seq<Piece>, f: Stop)
    requires Covered(src, st, pieces) && st.next.None? && st.depth == Loops(StackAfter(st.log))
    requires st.pos == f.i && !f.AtEnd? && f.i < f.end <= |src.text|
    requires f.AtComment? ==> IsComment(src.text, f.i, f.end)
    requires f.AtTag? ==> !f.tag.Text? && TagAt(src, st.depth, f.i, f.tag, f.end)
    ensures Covered(src, BehindStop(src, st, f), pieces + [StopMark(src, f)])
  {
    hide IsComment, TagAt, OnlyText, HoldsComment, StackAfter, Loops, Covers, Joined, TagsOf, Unclosed;
    hide Newlines, Recount, Recounted;
    Prefixes(src.text, f.i, f.end);
    NewlinesSplit(src.text, 0, f.i, f.end);
    assert |Joined(pieces)| == st.pos && TagsOf(pieces) == st.log;
    OneMorePiece(src, pieces, StopMark(src, f));
  }

  lemma {:induction false} ScanCovers(src: Source, st: St, pieces: seq<Piece>, faults: bool) returns (more: seq<Piece>)
    requires Covered(src, st, pieces) && (st.error <==> st.unclosed || faults)
    requires st.next.None? ==> st.depth == Loops(StackAfter(st.log))
    ensures var r := Scan(src, st); Covered(src, r, more) && (r.error <==> r.unclosed || faults)
    decreases |src.text| - st.pos
  {
    hide FindStop, IsComment, TagAt, OnlyText, HoldsComment, StackAfter, Loops, Covers, Joined, TagsOf, Unclosed;
    hide Newlines, Recount, Recounted;
    if st.next.Some? {
      more := pieces;
    } else {
      var f := FindStop(src, st.depth, st.pos, st.line, false);
      StopExact(src, st.depth, st.pos, st.line, false);
      StopLine(src, st, f);
      TextPiece(src, st, pieces, f);
      LoopsAfterText(st.log, src.text[st.pos..f.i]);
      if f.i > st.pos {
        more := pieces + [Mark(src.text[st.pos..f.i], Text(src.text[st.pos..f.i]))];
        if !f.AtEnd? {
          StopPiece(src, BehindText(src, st, f), more, f);
          more := more + [StopMark(src, f)];
        }
      } else if f.AtEnd? {
        more := pieces;
      } else {
        StopPiece(src, st, pieces, f);
        more := pieces + [StopMark(src, f)];
        if f.AtComment? { more := ScanCovers(src, Moved(st, f.end, f.line, f.bad), more, faults); }
      }
    }
  }

  /** The line at a stop, put together from the text and what stops it. */
  lemma StopLine(src: Source, st: St, f: Stop)
    requires Within(src, st) && f == FindStop(src, st.depth, st.pos, st.line, false)
    ensures f.i == st.pos ==> Newlines(src.text, st.pos, f.i) == 0 && Recount(src.text, st.pos, f.i) == 0
    ensures f.line == st.line + Newlines(src.text, st.pos, f.i) + Recount(src.text, st.pos, f.i)
                      + if f.AtEnd? then 0 else Newlines(src.text, f.i, f.end)
  {
    hide FindStop, Newlines, Recount;
    StopLines(src, st.depth, st.pos, st.line, false);
    NewlinesNone(src.text, f.i);
    RecountFirst(src.text, f.i, f.i);
    NewlinesSplit(src.text, st.pos, f.i, StopEnd(f));
  }

  // ---------------------------------------------------------------- whole templates

  lemma ScanFollows(src: Source, st: St, stack: seq<Open>, pieces: seq<Piece>) returns (more: seq<Piece>)
    requires Covered(src, st, pieces) && Ready(st, stack)
    ensures Covered(src, Scan(src, st), more) && Tracks(Scan(src, st), stack)
  {
    hide Scan, Covers, Joined, TagsOf, Unclosed, StackAfter, Loops, Faults, Step;
    more := ScanCovers(src, st, pieces, Faults(st.log));
    LoggedScan(src, st);
    WholeSuffix(stack);
  }

  lemma LoggedScan(src: Source, st: St)
    requires Within(src, st)
    ensures Logged(Scan(src, st)) && Consumed(Scan(src, st)) == st.log
  {
    hide Scan;
  }

  lemma WholeSuffix(stack: seq<Open>)
    ensures stack[0..] == stack
  {
  }

  /** A tag that neither leaves a part nor is stray. */
  lemma Undisturbed(st: St, stack: seq<Open>, next: seq<Open>)
    requires Tracks(st, stack) && st.cur.Some? && Step(stack, st.cur.value) == next
    requires Loops(next) == Loops(stack) && !Faulty(stack, st.cur.value)
    ensures Ready(st, next)
  {
    hide Step, Faulty, Loops, Tracks, Ready;
    TagDealtWith(st, stack);
    assert st.depth == Loops(stack) && Dealt(st, stack) == st by { DealtAlone(st, stack); }
  }

  lemma DealtAlone(st: St, stack: seq<Open>)
    requires Tracks(st, stack) && st.cur.Some?
    requires Loops(Step(stack, st.cur.value)) == Loops(stack) && !Faulty(stack, st.cur.value)
    ensures st.depth == Loops(stack) && Dealt(st, stack) == st
  {
    hide Step, Faulty, Loops, LeftOver, Faults;
  }

  lemma {:induction false} ItemsCover(src: Source, st: St, stack: seq<Open>, pieces: seq<Piece>)
    returns (more: seq<Piece>)
    requires Covered(src, st, pieces) && Tracks(st, stack)
    ensures var st' := ParseItems(src, st, StopsOf(stack)).1; Covered(src, st', more) && Tracks(st', stack)
    decreases Weight(src, st), 2
  {
    hide Scan, Covers, Joined, TagsOf, Unclosed, StackAfter, Loops, Faults, Tracks, Ready, StopsOf;
    more := pieces;
    if st.cur.Some? {
      var tag := st.cur.value;
      if Terminator(tag) && !Stopping(StopsOf(stack), tag) {
        more := StrayCovers(src, st, stack, pieces);
        more := ItemsCover(src, Scan(src, st.(error := true)), stack, more);
      } else if !Terminator(tag) {
        more := NodeCovers(src, st, stack, pieces);
        more := ItemsCover(src, ParseNode(src, st, StopsOf(stack)).1, stack, more);
      }
    }
  }

  lemma StrayCovers(src: Source, st: St, stack: seq<Open>, pieces: seq<Piece>) returns (more: seq<Piece>)
    requires Covered(src, st, pieces) && Tracks(st, stack) && st.cur.Some?
    requires Terminator(st.cur.value) && !Stopping(StopsOf(stack), st.cur.value)
    ensures var r := Scan(src, st.(error := true)); Covered(src, r, more) && Tracks(r, stack)
  {
    hide Scan, Covers, Joined, TagsOf, Unclosed, StackAfter, Loops, Faults, Ready, StopsOf, LeftOver, Step, Faulty;
    TakenNowhere(stack, st.cur.value);
    TagDealtWith(st, stack);
    more := ScanFollows(src, st.(error := true), stack, pieces);
  }

  lemma {:induction false} NodeCovers(src: Source, st: St, stack: seq<Open>, pieces: seq<Piece>)
    returns (more: seq<Piece>)
    requires Covered(src, st, pieces) && Tracks(st, stack) && st.cur.Some? && !Terminator(st.cur.value)
    ensures var st' := ParseNode(src, st, StopsOf(stack)).1; Covered(src, st', more) && Tracks(st', stack)
    decreases Weight(src, st), 1
  {
    hide Scan, Covers, Joined, TagsOf, Unclosed, StackAfter, Loops, Faults, Tracks, Ready, StopsOf;
    if st.cur.value.If? {
      Inside(Then, stack);
      Undisturbed(st, stack, [Then] + stack);
      more := IfCovers(src, st, stack, pieces);
    } else if st.cur.value.Loop? {
      more := LoopCovers(src, st, stack, pieces);
    } else {
      Undisturbed(st, stack, stack);
      more := ScanFollows(src, st, stack, pieces);
    }
  }

  lemma {:induction false} ListCovers(src: Source, st: St, stack: seq<Open>, pieces: seq<Piece>)
    returns (more: seq<Piece>)
    requires Covered(src, st, pieces) && Ready(st, stack)
    ensures var st' := ParseList(src, st, StopsOf(stack)).1;
            && Covered(src, st', more) && Tracks(st', stack)
            && (st'.cur.Some? ==> Stopping(StopsOf(stack), st'.cur.value))
    decreases Weight(src, Scan(src, st)), 3
  {
    hide Scan, Covers, Joined, TagsOf, Unclosed, StackAfter, Loops, Faults, Tracks, Ready, StopsOf;
    more := ScanFollows(src, st, stack, pieces);
    more := ItemsCover(src, Scan(src, st), stack, more);
  }

  lemma ClosingCovers(src: Source, st: St, open: Open, stack: seq<Open>, tag: Tag, pieces: seq<Piece>)
    returns (more: seq<Piece>)
    requires Covered(src, st, pieces) && Tracks(st, [open] + stack)
    requires tag == if open.Round? then EndLoop else EndIf
    requires st.cur.Some? ==> Stopping(StopsOf([open] + stack), st.cur.value)
                              && (Takes(open, st.cur.value) ==> st.cur.value == tag)
    ensures var r := Closing(src, st.(depth := Loops(stack)), tag); Covered(src, r, more) && Tracks(r, stack)
  {
    hide Scan, Covers, Joined, TagsOf, Unclosed, StackAfter, Loops, Faults, Ready, StopsOf, LeftOver, Step, Faulty;
    hide Tracks;
    if st.cur == Some(tag) {
      TakenHere(open, stack, tag);
      TagDealtWith(st, [open] + stack);
      more := ScanFollows(src, st.(depth := Loops(stack)), stack, pieces);
    } else {
      PartGivenUp(st, open, stack);
      more := pieces;
    }
  }

  lemma {:induction false} LoopCovers(src: Source, st: St, stack: seq<Open>, pieces: seq<Piece>)
    returns (more: seq<Piece>)
    requires Covered(src, st, pieces) && Tracks(st, stack) && st.cur.Some? && st.cur.value.Loop?
    ensures var st' := ParseLoop(src, st, StopsOf(stack)).1; Covered(src, st', more) && Tracks(st', stack)
    decreases Weight(src, st), 0
  {
    hide Scan, Covers, Joined, TagsOf, Unclosed, StackAfter, Loops, Faults, Ready, StopsOf, ParseItems, ParseList;
    hide Closing;
    hide LeftOver;
    var inner := st.(depth := st.depth + 1);
    TagDealtWith(st, stack);
    Inside(Round, stack);
    assert Dealt(st, stack) == inner;
    more := ListCovers(src, inner, [Round] + stack, pieces);
    var st1 := ParseList(src, inner, StopsOf([Round] + stack)).1;
    more := ClosingCovers(src, st1, Round, stack, EndLoop, more);
  }

  /** At a TMPL_IF or TMPL_ELSIF whose part has just been entered. */
  lemma {:induction false} IfCovers(src: Source, st: St, stack: seq<Open>, pieces: seq<Piece>)
    returns (more: seq<Piece>)
    requires Covered(src, st, pieces) && Ready(st, [Then] + stack) && st.cur.Some?
    ensures var st' := ParseIf(src, st, StopsOf(stack)).1; Covered(src, st', more) && Tracks(st', stack)
    decreases Weight(src, st), 0
  {
    hide Scan, Covers, Joined, TagsOf, Unclosed, StackAfter, Loops, Faults, Ready, Tracks, StopsOf, ParseItems;
    hide ParseList;
    hide Closing, Step, Faulty;
    Inside(Then, stack);
    Inside(Otherwise, stack);
    more := ListCovers(src, st, [Then] + stack, pieces);
    var st1 := ParseList(src, st, IfStops(StopsOf(stack))).1;
    DepthOf(st1, [Then] + stack);
    if st1.cur.Some? && st1.cur.value.Elsif? {
      TakenHere(Then, stack, st1.cur.value);
      Undisturbed(st1, [Then] + stack, [Then] + stack);
      more := IfCovers(src, st1, stack, more);
    } else if st1.cur == Some(Else) {
      TakenHere(Then, stack, Else);
      Undisturbed(st1, [Then] + stack, [Otherwise] + stack);
      more := ListCovers(src, st1, [Otherwise] + stack, more);
      var st2 := ParseList(src, st1, ElseStops(StopsOf(stack))).1;
      DepthOf(st2, [Otherwise] + stack);
      assert st2.(depth := Loops(stack)) == st2;
      more := ClosingCovers(src, st2, Otherwise, stack, EndIf, more);
    } else {
      assert st1.(depth := Loops(stack)) == st1;
      more := ClosingCovers(src, st1, Then, stack, EndIf, more);
    }
  }

  lemma DepthOf(st: St, stack: seq<Open>)
    requires Tracks(st, stack)
    ensures st.depth == Loops(stack)
  {
  }

  /** Whatever the template: comments, texts and tags cover it without a gap or an overlap, each
      where it can stand at the loop depth that the tags before it make; the texts and tags among
      them are, in order, what scan() returns; and the parser reports an error exactly when a text
      holds an open comment, or a tag is stray, or a statement is left or ends without its closing tag.
      The line counter is then 1 and all line ends, those behind an open comment counted once more. */
  lemma TemplateIsCovered(src: Source) returns (pieces: seq<Piece>)
    ensures Covers(src, pieces) && Joined(pieces) == src.text
    ensures TagsOf(pieces) == ParseTemplate(src).1.log
    ensures ParseTemplate(src).1.error <==>
              Unclosed(pieces) || Faults(TagsOf(pieces)) || StackAfter(TagsOf(pieces)) != []
    ensures ParseTemplate(src).1.line == 1 + Newlines(src.text, 0, |src.text|) + Recounted(src.text, pieces)
  {
    hide Scan, ParseItems, ParseList, Covers, Joined, TagsOf, Unclosed, Step, Faulty, Faults, StackAfter, Tracks;
    NothingCovered(src);
    AtStart();
    pieces := ListCovers(src, Start(), [], []);
    EndReached(src);
    WholeText(src.text);
    AtEndOfTemplate(ParseTemplate(src).1);
  }

  lemma WholeText(s: string)
    ensures s[..|s|] == s
  {
  }

  lemma AtStart()
    ensures Ready(Start(), []) && StopsOf([]) == NO_STOPS
  {
  }

  lemma AtEndOfTemplate(st: St)
    requires Tracks(st, []) && st.cur.None?
    ensures st.error <==> st.unclosed || Faults(st.log) || StackAfter(st.log) != []
  {
    hide Faults, StackAfter;
  }

  lemma NothingCovered(src: Source)
    ensures Covered(src, Start(), [])
  {
  }

  lemma EndReached(src: Source)
    ensures var st := ParseTemplate(src).1; st.cur.None? && st.pos == |src.text|
  {
    hide Scan;
    EveryTagLinkedOnce(src);
    AllLinesCounted(src);
  }

  // ---------------------------------------------------------------- there is only one way

  lemma CommentEndsOnce(s: CString, a: nat, b: nat, c: nat)
    requires IsComment(s, a, b) && IsComment(s, a, c)
    ensures b <= c
  {
  }

  /** What kind of piece starts at a place. */
  lemma KindsExclude(src: Source, a: nat, depth: nat, x: Piece)
    requires PieceAt(src, a, depth, x)
    ensures |x.text| > 0
    ensures x.Mark? && x.tag.Text? <==> OnlyText(src, depth, a)
    ensures x.Skipped? ==> ScanTag(src, depth, a, 0).NoTag?
    ensures x.Mark? && !x.tag.Text? ==>
              ScanTag(src, depth, a, 0) == Found(x.tag, a + |x.text|, ScanTag(src, depth, a, 0).line)
  {
    hide ScanTag;
    if x.Skipped? {
      NoTagInComment(src, depth, a, 0);
    } else if !x.tag.Text? {
      assert ScanTag(src, depth, a, 0).Found?;
    }
  }

  lemma TextEndsOnce(src: Source, a: nat, depth: nat, x: Piece, y: Piece)
    requires PieceAt(src, a, depth, x) && PieceAt(src, a, depth, y)
    requires x.Mark? && y.Mark? && x.tag.Text? && y.tag.Text?
    ensures |x.text| <= |y.text|
  {
    hide OnlyText;
  }

  lemma PieceIsUnique(src: Source, a: nat, depth: nat, x: Piece, y: Piece)
    requires PieceAt(src, a, depth, x) && PieceAt(src, a, depth, y)
    ensures x == y
  {
    hide OnlyText, IsComment, TagAt;
    KindsExclude(src, a, depth, x);
    KindsExclude(src, a, depth, y);
    if x.Skipped? {
      CommentEndsOnce(src.text, a, a + |x.text|, a + |y.text|);
      CommentEndsOnce(src.text, a, a + |y.text|, a + |x.text|);
    } else if x.tag.Text? {
      TextEndsOnce(src, a, depth, x, y);
      TextEndsOnce(src, a, depth, y, x);
    }
  }

  lemma {:induction false} CoversEach(src: Source, pieces: seq<Piece>, n: nat)
    requires Covers(src, pieces) && n < |pieces|
    ensures PieceAt(src, Place(pieces[..n]), DepthBehind(pieces[..n]), pieces[n])
  {
    hide PieceAt, Joined, TagsOf;
    if n + 1 < |pieces| {
      CoversEach(src, Init(pieces), n);
      assert Init(pieces)[..n] == pieces[..n];
    }
  }

  function Place(pieces: seq<Piece>): nat { |Joined(pieces)| }

  function DepthBehind(pieces: seq<Piece>): nat { Loops(StackAfter(TagsOf(pieces))) }

  lemma CoverLast(src: Source, pieces: seq<Piece>)
    requires Covers(src, pieces) && pieces != []
    ensures Covers(src, Init(pieces)) && PieceAt(src, Place(Init(pieces)), DepthBehind(Init(pieces)), Last(pieces))
    ensures Place(Init(pieces)) < Place(pieces)
  {
    hide PieceAt;
    KindsExclude(src, Place(Init(pieces)), DepthBehind(Init(pieces)), Last(pieces));
  }

  lemma LongerCover(a: seq<Piece>, b: seq<Piece>)
    requires a <= b && Place(a) != Place(b)
    ensures |a| < |b|
  {
    hide Place;
    assert b[..|b|] == b && b[..|a|] == a;
  }

  lemma PrefixGrows(a: seq<Piece>, b: seq<Piece>)
    requires a != [] && |a| <= |b| && b[..|a| - 1] == Init(a) && b[|a| - 1] == Last(a)
    ensures a <= b
  {
    forall k | 0 <= k < |a| ensures a[k] == b[k] {
      if k < |a| - 1 { assert a[k] == Init(a)[k] == b[..|a| - 1][k]; }
    }
  }

  lemma {:induction false} ShorterCoverIsPrefix(src: Source, a: seq<Piece>, b: seq<Piece>)
    requires Covers(src, a) && Covers(src, b) && Place(a) <= Place(b)
    ensures a <= b
  {
    hide PieceAt, Covers, Place, DepthBehind;
    if a != [] {
      CoverLast(src, a);
      ShorterCoverIsPrefix(src, Init(a), b);
      LongerCover(Init(a), b);
      CoversEach(src, b, |a| - 1);
      assert b[..|a| - 1] == Init(a);
      PieceIsUnique(src, Place(Init(a)), DepthBehind(Init(a)), Last(a), b[|a| - 1]);
      PrefixGrows(a, b);
    }
  }

  /** The template alone determines the pieces, hence what scan() returns. */
  lemma CoverIsUnique(src: Source, a: seq<Piece>, b: seq<Piece>)
    requires Covers(src, a) && Covers(src, b) && Joined(a) == src.text == Joined(b)
    ensures a == b
  {
    hide Covers, Joined;
    assert Place(a) == Place(b);
    ShorterCoverIsPrefix(src, a, b);
    ShorterCoverIsPrefix(src, b, a);
  }
}
