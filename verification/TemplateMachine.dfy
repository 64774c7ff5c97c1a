/** A machine without flags: TMPL_BREAK and TMPL_CONTINUE jump. The flag-based walk() is
    proved to do what this machine does. */
module TemplateMachine {
  import opened Prelude
  import opened TemplateScanner
  import opened TemplateParser
  import opened TemplateTrees
  import opened TemplateWalk

  /** What is to be done after the current nodes: the next round of a loop and what follows the
      loop, or the rest of the including file. */
  datatype Frame =
    | LoopFrame(body: seq<Node>, items: seq<VarList>, scope: Env, rest: seq<Node>, env: Env)
    | FileFrame(src: Source, file: string, rest: seq<Node>, env: Env)

  datatype Config =
    | Running(src: Source, file: string, nodes: seq<Node>, env: Env, stack: seq<Frame>, out: seq<Event>)
    | Done(out: seq<Event>)
    | Failed(out: seq<Event>)

  /** The n-th frame from the top is a loop of the current file, like all above it. */
  predicate LoopsOnTop(stack: seq<Frame>, n: nat) {
    n <= |stack| && forall i | 0 <= i < n :: stack[i].LoopFrame?
  }

  /** Leave n enclosing loops: go on behind the n-th. */
  function Leave(c: Config, n: nat): Config
    requires c.Running? && n >= 1 && LoopsOnTop(c.stack, n)
  {
    c.(nodes := c.stack[n - 1].rest, env := c.stack[n - 1].env, stack := c.stack[n..])
  }

  /** Start the next round of the n-th enclosing loop. */
  function NextRound(c: Config, n: nat): Config
    requires c.Running? && n >= 1 && LoopsOnTop(c.stack, n)
  {
    c.(nodes := [], env := c.stack[n - 1].env, stack := c.stack[n - 1..])
  }

  /** None: the machine has stopped, or a jump names no loop of the current file. */
  function Step(files: Files, c: Config): Option<Config> {
    if !c.Running? then None
    else if c.nodes == [] then
      if c.stack == [] then Some(Done(c.out))
      else
        (match c.stack[0]
         case LoopFrame(body, items, scope, rest, env) =>
           if items == [] then Some(c.(nodes := rest, env := env, stack := c.stack[1..]))
           else Some(c.(nodes := body, env := [items[0]] + scope,
                        stack := [c.stack[0].(items := items[1..])] + c.stack[1..]))
         case FileFrame(src, file, rest, env) => Some(Running(src, file, rest, env, c.stack[1..], c.out)))
    else
      var rest := c.nodes[1..];
      match c.nodes[0]
      case Cond(tag, tbranch, fbranch) =>
        Some(c.(nodes := (if Holds(tag, c.env) then tbranch else fbranch) + rest))
      case Block(tag, body) =>
        var loop := if tag.Loop? then FindLoop(tag.name, c.env) else None;
        if loop.None? then Some(c.(nodes := rest))
        else Some(c.(nodes := [], stack := [LoopFrame(body, loop.value.0.items, loop.value.1, rest, c.env)] + c.stack))
      case Leaf(tag) =>
        match tag
        case Break(n) => if n >= 1 && LoopsOnTop(c.stack, n) then Some(Leave(c, n)) else None
        case Continue(n) => if n >= 1 && LoopsOnTop(c.stack, n) then Some(NextRound(c, n)) else None
        case Text(text) => Some(c.(nodes := rest, out := c.out + [Written(text)]))
        case Var(_, _, _) => Some(c.(nodes := rest, out := c.out + ShowVar(tag, c.env)))
        case Include(name) =>
          var newfile := NewFilename(name, c.file);
          if newfile !in files then Some(Failed(c.out))
          else
            var inner := Included(c.src, files[newfile]);
            var (nodes, st) := ParseTemplate(inner);
            if st.error then Some(Failed(c.out))
            else Some(Running(inner, newfile, nodes, c.env, [FileFrame(c.src, c.file, rest, c.env)] + c.stack, c.out))
        case _ => Some(c.(nodes := rest))
  }

  function Steps(files: Files, c: Config, k: nat): Option<Config>
    decreases k
  {
    if k == 0 then Some(c)
    else
      var c' := Step(files, c);
      if c'.None? then None else Steps(files, c'.value, k - 1)
  }

  lemma {:induction false} StepsCompose(files: Files, c: Config, a: nat, b: nat)
    requires Steps(files, c, a).Some?
    ensures Steps(files, c, a + b) == Steps(files, Steps(files, c, a).value, b)
    decreases a
  {
    if a > 0 { StepsCompose(files, Step(files, c).value, a - 1, b); }
  }

  /** c takes the machine to c'. */
  ghost predicate Reaches(files: Files, c: Config, c': Config) {
    exists k: nat :: Steps(files, c, k) == Some(c')
  }

  lemma ReachesNow(files: Files, c: Config)
    ensures Reaches(files, c, c)
  {
    assert Steps(files, c, 0) == Some(c);
  }

  lemma ReachesStep(files: Files, c: Config, c': Config)
    requires Step(files, c) == Some(c')
    ensures Reaches(files, c, c')
  {
    assert Steps(files, c', 0) == Some(c');
    assert Steps(files, c, 1) == Some(c');
  }

  lemma ReachesVia(files: Files, a: Config, b: Config, c: Config)
    requires Reaches(files, a, b) && Reaches(files, b, c)
    ensures Reaches(files, a, c)
  {
    var j: nat :| Steps(files, a, j) == Some(b);
    var k: nat :| Steps(files, b, k) == Some(c);
    StepsCompose(files, a, j, k);
    assert Steps(files, a, j + k) == Some(c);
  }

  // ---------------------------------------------------------------- walk() and the machine

  /** Where the machine is after a walk that ended with these flags. c is the configuration
      whose nodes are what follows the walked nodes. */
  function After(c: Config, w: Walked): Config
    requires c.Running?
    requires LoopsOnTop(c.stack, w.breakLevel) && LoopsOnTop(c.stack, w.contLevel)
  {
    if w.error then Failed(w.out)
    else if w.breakLevel > 0 then Leave(c, w.breakLevel).(out := w.out)
    else if w.contLevel > 0 then NextRound(c, w.contLevel).(out := w.out)
    else c.(out := w.out)
  }

  /** The flags name loops around the nodes; never both kinds at once. */
  predicate FlagsOk(w: Walked, depth: nat) {
    && w.breakLevel <= depth && w.contLevel <= depth && (w.breakLevel == 0 || w.contLevel == 0)
    && (w.error ==> w.breakLevel == 0 && w.contLevel == 0)
  }

  predicate Clear(w: Walked) { !Unwinding(w) }

  lemma {:induction false} WalkIsSimulated(files: Files, c: Config, depth: nat, nodes: seq<Node>, tail: seq<Node>,
                                           w: Walked)
    requires c.Running? && c.nodes == nodes + tail && LoopsOnTop(c.stack, depth)
    requires NodesLegal(c.src, depth, nodes) && w == Walked(c.out, false, 0, 0)
    ensures var w' := Walk(files, c.src, c.file, depth, nodes, c.env, w);
            FlagsOk(w', depth) && Reaches(files, c, After(c.(nodes := tail), w'))
    decreases MAX_INCLUDE_DEPTH - c.src.includeDepth, nodes, 3
  {
    hide Legal, ParseTemplate, NewFilename;
    if nodes == [] {
      assert nodes + tail == tail;
      ReachesNow(files, c);
    } else {
      var rest := nodes[1..];
      assert c.nodes[0] == nodes[0] && c.nodes[1..] == rest + tail;
      match nodes[0]
      case Cond(tag, tbranch, fbranch) =>
        var branch := if Holds(tag, c.env) then tbranch else fbranch;
        var c1 := c.(nodes := branch + (rest + tail));
        ReachesStep(files, c, c1);
        WalkIsSimulated(files, c1, depth, branch, rest + tail, w);
        var w1 := Walk(files, c.src, c.file, depth, branch, c.env, w);
        GoOn(files, c, c1, depth, rest, tail, w1, nodes);
      case Block(tag, body) =>
        var loop := if tag.Loop? then FindLoop(tag.name, c.env) else None;
        if loop.None? {
          ReachesStep(files, c, c.(nodes := rest + tail));
          ReachesNow(files, c.(nodes := rest + tail));
          GoOn(files, c, c.(nodes := rest + tail), depth, rest, tail, w, nodes);
        } else {
          var frame := LoopFrame(body, loop.value.0.items, loop.value.1, rest + tail, c.env);
          var c1 := c.(nodes := [], stack := [frame] + c.stack);
          ReachesStep(files, c, c1);
          LoopIsSimulated(files, c1, depth, w);
          var w1 := WalkLoop(files, c.src, c.file, depth, body, frame.items, frame.scope, w);
          assert c1.stack[1..] == c.stack;
          GoOn(files, c, c1, depth, rest, tail, w1, nodes);
        }
      case Leaf(tag) => LeafIsSimulated(files, c, depth, nodes, tail, w);
    }
  }

  /** The nodes after the first one, from where its walk left the machine. */
  lemma {:induction false} GoOn(files: Files, c: Config, c1: Config, depth: nat, rest: seq<Node>, tail: seq<Node>,
                                w1: Walked, nodes: seq<Node>)
    requires c.Running? && LoopsOnTop(c.stack, depth) && NodesLegal(c.src, depth, rest) && FlagsOk(w1, depth)
    requires nodes != [] && rest == nodes[1..]
    requires Reaches(files, c, c1) && Reaches(files, c1, After(c.(nodes := rest + tail), w1))
    ensures var w' := Walk(files, c.src, c.file, depth, rest, c.env, w1);
            FlagsOk(w', depth) && Reaches(files, c, After(c.(nodes := tail), w'))
    decreases MAX_INCLUDE_DEPTH - c.src.includeDepth, nodes, 1
  {
    hide Legal;
    var c2 := After(c.(nodes := rest + tail), w1);
    ReachesVia(files, c, c1, c2);
    if Clear(w1) {
      WalkIsSimulated(files, c2, depth, rest, tail, w1);
      var w' := Walk(files, c.src, c.file, depth, rest, c.env, w1);
      ReachesVia(files, c, c2, After(c.(nodes := tail), w'));
    }
  }

  lemma {:induction false} LeafIsSimulated(files: Files, c: Config, depth: nat, nodes: seq<Node>, tail: seq<Node>,
                                           w: Walked)
    requires c.Running? && c.nodes == nodes + tail && LoopsOnTop(c.stack, depth)
    requires NodesLegal(c.src, depth, nodes) && w == Walked(c.out, false, 0, 0)
    requires nodes != [] && nodes[0].Leaf?
    ensures var w' := Walk(files, c.src, c.file, depth, nodes, c.env, w);
            FlagsOk(w', depth) && Reaches(files, c, After(c.(nodes := tail), w'))
    decreases MAX_INCLUDE_DEPTH - c.src.includeDepth, nodes, 2
  {
    hide ParseTemplate, NewFilename, OptionOk, ValueOk;
    var tag := nodes[0].tag;
    var rest := nodes[1..];
    assert c.nodes[0] == nodes[0] && c.nodes[1..] == rest + tail;
    assert NodeLegal(c.src, depth, nodes[0]);
    if tag.Break? || tag.Continue? {
      var w' := Walk(files, c.src, c.file, depth, nodes, c.env, w);
      ReachesStep(files, c, After(c.(nodes := tail), w'));
    } else if tag.Include? {
      var w1 := WalkFile(files, c.src, c.file, NewFilename(tag.filename, c.file), c.env, w);
      FileIsSimulated(files, c, tag.filename, rest + tail, w, nodes);
      ReachesNow(files, c);
      GoOn(files, c, c, depth, rest, tail, w1, nodes);
    } else {
      var w1 := if tag.Text? then w.(out := w.out + [Written(tag.text)])
                else if tag.Var? then w.(out := w.out + ShowVar(tag, c.env))
                else w;
      var c1 := c.(nodes := rest + tail, out := w1.out);
      ReachesStep(files, c, c1);
      ReachesNow(files, c1);
      GoOn(files, c, c1, depth, rest, tail, w1, nodes);
    }
  }

  /** The flags behind a loop, for a jump that does not end there. */
  function OneLess(w: Walked): Walked
    requires w.breakLevel > 0 || w.contLevel > 0
  {
    if w.breakLevel > 0 then w.(breakLevel := w.breakLevel - 1) else w.(contLevel := w.contLevel - 1)
  }

  /** Behind the loop of frame f. */
  function Behind(c: Config, f: Frame, stack: seq<Frame>): Config
    requires c.Running? && f.LoopFrame?
  {
    c.(nodes := f.rest, env := f.env, stack := stack)
  }

  /** Jumps past the loop on top of the stack are jumps, one level less, from behind it. */
  lemma JumpsPast(c: Config, f: Frame, stack: seq<Frame>, w: Walked, depth: nat)
    requires c.Running? && f.LoopFrame? && c.stack == [f] + stack && LoopsOnTop(stack, depth)
    requires FlagsOk(w, depth + 1) && !w.error && (w.breakLevel > 0 || w.contLevel > 1)
    ensures LoopsOnTop(c.stack, depth + 1) && FlagsOk(OneLess(w), depth)
    ensures After(c, w) == After(Behind(c, f, stack), OneLess(w))
  {
    assert forall i | 1 <= i <= |stack| :: c.stack[i] == stack[i - 1];
    if w.breakLevel > 0 {
      assert c.stack[w.breakLevel..] == stack[w.breakLevel - 1..];
    } else {
      assert c.stack[w.contLevel - 1..] == stack[w.contLevel - 2..];
    }
  }

  /** The other ends of a round: the next round starts. */
  lemma RoundEnds(c: Config, f: Frame, stack: seq<Frame>, w: Walked)
    requires c.Running? && f.LoopFrame? && c.stack == [f] + stack && LoopsOnTop(c.stack, 1)
    requires !w.error && w.breakLevel == 0 && w.contLevel <= 1
    ensures var c' := After(c.(nodes := []), w);
            c' == c.(nodes := [], env := c'.env, out := w.out)
  {
    assert c.stack[0..] == c.stack;
  }

  /** From the start of a round of the loop on top of the stack to behind the loop. */
  lemma {:induction false} LoopIsSimulated(files: Files, c: Config, depth: nat, w: Walked)
    requires c.Running? && c.nodes == [] && LoopsOnTop(c.stack, depth + 1)
    requires NodesLegal(c.src, depth + 1, c.stack[0].body) && w == Walked(c.out, false, 0, 0)
    ensures var f := c.stack[0];
            var w' := WalkLoop(files, c.src, c.file, depth, f.body, f.items, f.scope, w);
            && LoopsOnTop(c.stack[1..], depth) && FlagsOk(w', depth)
            && Reaches(files, c, After(c.(nodes := f.rest, env := f.env, stack := c.stack[1..]), w'))
    decreases MAX_INCLUDE_DEPTH - c.src.includeDepth, c.stack[0].body, 4 + |c.stack[0].items|
  {
    hide NodesLegal, Walk, After, Reaches;
    var f := c.stack[0];
    var stack := c.stack[1..];
    var behind := c.(nodes := f.rest, env := f.env, stack := stack);
    if f.items == [] {
      ReachesStep(files, c, behind);
      AfterClear(behind, w);
    } else {
      var f1 := f.(items := f.items[1..]);
      var c1 := c.(nodes := f.body, env := [f.items[0]] + f.scope, stack := [f1] + stack);
      ReachesStep(files, c, c1);
      assert f.body + [] == f.body;
      WalkIsSimulated(files, c1, depth + 1, f.body, [], w);
      var w1 := Walk(files, c.src, c.file, depth + 1, f.body, c1.env, w);
      var c2 := After(c1.(nodes := []), w1);
      ReachesVia(files, c, c1, c2);
      if w1.error {
        ErrorStays(files, c.src, c.file, depth, f.body, f.items[1..], f.scope, w1);
        AfterError(c1.(nodes := []), w1);
        AfterError(behind, w1);
      } else if w1.breakLevel > 0 || w1.contLevel > 1 {
        JumpsPast(c1.(nodes := []), f1, stack, w1, depth);
      } else {
        RoundEnds(c1, f1, stack, w1);
        LoopIsSimulated(files, c2, depth, w1.(contLevel := 0));
        assert c2.stack[0] == f1 && c2.stack[1..] == stack;
        var w' := WalkLoop(files, c.src, c.file, depth, f.body, f.items, f.scope, w);
        assert c2.(nodes := f.rest, env := f.env, stack := stack) == behind.(out := c2.out);
        AfterSetsOut(behind, c2.out, w');
        ReachesVia(files, c, c2, After(behind, w'));
      }
    }
  }

  lemma AfterSetsOut(c: Config, out: seq<Event>, w: Walked)
    requires c.Running? && LoopsOnTop(c.stack, w.breakLevel) && LoopsOnTop(c.stack, w.contLevel)
    ensures After(c.(out := out), w) == After(c, w)
  {
  }

  lemma AfterClear(c: Config, w: Walked)
    requires c.Running? && Clear(w) && c.out == w.out
    ensures After(c, w) == c
  {
  }

  lemma AfterError(c: Config, w: Walked)
    requires c.Running? && w.error && w.breakLevel == 0 && w.contLevel == 0
    ensures After(c, w) == Failed(w.out)
  {
  }

  lemma {:induction false} ErrorStays(files: Files, src: Source, file: string, depth: nat, body: seq<Node>,
                                      items: seq<VarList>, scope: Env, w: Walked)
    requires NodesLegal(src, depth + 1, body) && w.error && w.breakLevel == 0 && w.contLevel == 0
    ensures WalkLoop(files, src, file, depth, body, items, scope, w) == w
    decreases |items|
  {
    if items != [] { ErrorStays(files, src, file, depth, body, items[1..], scope, w); }
  }

  lemma {:induction false} FileIsSimulated(files: Files, c: Config, name: string, rest: seq<Node>, w: Walked,
                                           nodes: seq<Node>)
    requires c.Running? && c.nodes != [] && c.nodes[0] == Leaf(Include(name)) && c.nodes[1..] == rest
    requires c.src.includeDepth < MAX_INCLUDE_DEPTH && w == Walked(c.out, false, 0, 0)
    ensures var w' := WalkFile(files, c.src, c.file, NewFilename(name, c.file), c.env, w);
            FlagsOk(w', 0) && Reaches(files, c, After(c.(nodes := rest), w'))
    decreases MAX_INCLUDE_DEPTH - c.src.includeDepth, nodes, 0
  {
    hide ParseTemplate, NewFilename, Legal;
    var newfile := NewFilename(name, c.file);
    var w' := WalkFile(files, c.src, c.file, newfile, c.env, w);
    if newfile !in files {
      ReachesStep(files, c, Failed(c.out));
    } else {
      var inner := Included(c.src, files[newfile]);
      ParsedTagsAreLegal(inner);
      var (tree, st) := ParseTemplate(inner);
      if st.error {
        ReachesStep(files, c, Failed(c.out));
      } else {
        var frame := FileFrame(c.src, c.file, rest, c.env);
        var c1 := Running(inner, newfile, tree, c.env, [frame] + c.stack, c.out);
        ReachesStep(files, c, c1);
        assert tree + [] == tree;
        WalkIsSimulated(files, c1, 0, tree, [], w);
        var w2 := Walk(files, inner, newfile, 0, tree, c.env, w);
        var c2 := After(c1.(nodes := []), w2);
        ReachesVia(files, c, c1, c2);
        if !w2.error {
          assert ([frame] + c.stack)[1..] == c.stack;
          ReachesStep(files, c2, After(c.(nodes := rest), w'));
          ReachesVia(files, c, c2, After(c.(nodes := rest), w'));
        }
      }
    }
  }

  /** Where the machine starts for a template: on its tree with no loop around it, unless it is in error. */
  function Begin(src: Source, file: string, env: Env): Config {
    var (nodes, st) := ParseTemplate(src);
    if st.error then Failed([]) else Running(src, file, nodes, env, [], [])
  }

  function End(w: Walked): Config { if w.error then Failed(w.out) else Done(w.out) }

  lemma BeginReachesEnd(files: Files, src: Source, file: string, env: Env)
    ensures var w := Write(files, src, file, env);
            w.breakLevel == 0 && w.contLevel == 0 && Reaches(files, Begin(src, file, env), End(w))
  {
    hide ParseTemplate, Legal;
    ParsedTagsAreLegal(src);
    var (nodes, st) := ParseTemplate(src);
    if st.error {
      ReachesNow(files, Failed([]));
    } else {
      var c := Running(src, file, nodes, env, [], []);
      assert nodes + [] == nodes;
      WalkIsSimulated(files, c, 0, nodes, [], Walked([], false, 0, 0));
      var w := Write(files, src, file, env);
      if !w.error {
        var c1 := c.(nodes := [], out := w.out);
        ReachesStep(files, c1, Done(w.out));
        ReachesVia(files, c, c1, Done(w.out));
      }
    }
  }

  lemma {:induction false} StopsOnce(files: Files, c: Config, j: nat, k: nat)
    requires Steps(files, c, j).Some? && Steps(files, c, k).Some?
    requires !Steps(files, c, j).value.Running? && !Steps(files, c, k).value.Running?
    ensures Steps(files, c, j) == Steps(files, c, k)
    decreases j
  {
    hide Step;
    if j > 0 && k > 0 {
      StopsOnce(files, Step(files, c).value, j - 1, k - 1);
    } else if j == 0 && k > 0 {
      Halted(files, c);
    } else if j > 0 && k == 0 {
      Halted(files, c);
    }
  }

  lemma Halted(files: Files, c: Config)
    requires !c.Running?
    ensures Step(files, c) == None
  {
  }

  /** TMPL_write() on any template, files and variables: the jump machine, started on the parse
      tree with no loop around it, never gets stuck on a jump, stops, and can stop in one way only:
      with exactly what walk() writes, failed exactly when walk() fails, and with nothing written if
      the template is in error. In particular no break or continue of an included file can leave that
      file, and both flags are 0 at the end, as a template that is visited again requires. */
  lemma WriteFollowsTheMachine(files: Files, src: Source, file: string, env: Env, c: Config)
    requires !c.Running?
    ensures var w := Write(files, src, file, env);
            && w.breakLevel == 0 && w.contLevel == 0
            && (Reaches(files, Begin(src, file, env), c) <==> c == End(w))
  {
    hide Step, Begin, Write;
    BeginReachesEnd(files, src, file, env);
    var b, e := Begin(src, file, env), End(Write(files, src, file, env));
    if Reaches(files, b, c) {
      var j: nat :| Steps(files, b, j) == Some(c);
      var k: nat :| Steps(files, b, k) == Some(e);
      StopsOnce(files, b, j, k);
    }
  }

  // ---------------------------------------------------------------- templates kept for included files

  /** The same include tag visited with each of these variables in turn, as in a loop: the file is
      parsed at the first visit, and the kept template walked with the error and the flags that the
      visit before has left. */
  function KeptVisits(files: Files, kept: Source, name: string, nodes: seq<Node>, envs: seq<Env>, t: Walked): Walked
    requires NodesLegal(kept, 0, nodes)
    decreases |envs|
  {
    if envs == [] then t
    else KeptVisits(files, kept, name, nodes, envs[1..], Walk(files, kept, name, 0, nodes, envs[0], t))
  }

  /** The visits with a new template each time; an error ends the walk of the including file. */
  function FreshVisits(files: Files, src: Source, file: string, name: string, envs: seq<Env>, w: Walked): Walked
    requires src.includeDepth < MAX_INCLUDE_DEPTH
    decreases |envs|
  {
    if envs == [] || w.error then w
    else FreshVisits(files, src, file, name, envs[1..], WalkFile(files, src, file, name, envs[0], w))
  }

  lemma WalkLeavesNoFlags(files: Files, kept: Source, name: string, nodes: seq<Node>, env: Env, out: seq<Event>)
    requires NodesLegal(kept, 0, nodes)
    ensures var w := Walk(files, kept, name, 0, nodes, env, Walked(out, false, 0, 0));
            w.breakLevel == 0 && w.contLevel == 0
  {
    hide Legal;
    assert nodes + [] == nodes;
    WalkIsSimulated(files, Running(kept, name, nodes, env, [], out), 0, nodes, [], Walked(out, false, 0, 0));
  }

  lemma {:induction false} ErrorEndsVisits(files: Files, kept: Source, name: string, nodes: seq<Node>, envs: seq<Env>,
                                           t: Walked)
    requires NodesLegal(kept, 0, nodes) && t.error
    ensures KeptVisits(files, kept, name, nodes, envs, t) == t
    decreases |envs|
  {
    hide NodesLegal;
    if envs != [] { ErrorEndsVisits(files, kept, name, nodes, envs[1..], t); }
  }

  /** Keeping the template of an included file is the same as reading and parsing it at every visit. */
  lemma {:induction false} KeptTemplateIsFresh(files: Files, src: Source, file: string, name: string, envs: seq<Env>,
                                               w: Walked)
    requires src.includeDepth < MAX_INCLUDE_DEPTH && name in files && envs != [] && w == Walked(w.out, false, 0, 0)
    ensures var kept := Included(src, files[name]);
            var (nodes, st) := ParseTemplate(kept);
            var anew := FreshVisits(files, src, file, name, envs, w);
            NodesLegal(kept, 0, nodes)
            && var t := KeptVisits(files, kept, name, nodes, envs, Walked(w.out, st.error, 0, 0));
            && t.out == anew.out && t.error == anew.error
            && (!t.error ==> t.breakLevel == 0 && t.contLevel == 0)
            && anew.breakLevel == 0 && anew.contLevel == 0
    decreases |envs|
  {
    hide ParseTemplate, NodesLegal, Walk;
    var kept := Included(src, files[name]);
    ParsedTagsAreLegal(kept);
    var (nodes, st) := ParseTemplate(kept);
    var t := Walked(w.out, st.error, 0, 0);
    var t1 := Walk(files, kept, name, 0, nodes, envs[0], t);
    if t1.error {
      ErrorEndsVisits(files, kept, name, nodes, envs[1..], t1);
    } else {
      ErrorStaysInWalk(files, kept, name, nodes, envs[0], t);
      WalkLeavesNoFlags(files, kept, name, nodes, envs[0], w.out);
      if |envs| > 1 { KeptTemplateIsFresh(files, src, file, name, envs[1..], w.(out := t1.out)); }
    }
  }

  lemma ErrorStaysInWalk(files: Files, kept: Source, name: string, nodes: seq<Node>, env: Env, t: Walked)
    requires NodesLegal(kept, 0, nodes)
    ensures t.error ==> Walk(files, kept, name, 0, nodes, env, t) == t
  {
    hide NodesLegal;
  }
}
