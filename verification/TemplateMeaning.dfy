/** What conditions, variables, loops and included names mean, said without the searches of the code. */
module TemplateMeaning {
  import opened Prelude
  import opened TemplateScanner
  import opened TemplateParser
  import opened TemplateTrees
  import opened TemplateRoundTrip
  import opened TemplatePrint
  import opened TemplateWalk
  import opened TemplateMachine

  // ---------------------------------------------------------------- scopes

  predicate Names(name: string, vars: seq<(string, string)>) {
    exists j :: 0 <= j < |vars| && vars[j].0 == name
  }

  /** The first entry of that name has value v. */
  predicate Gives(name: string, v: string, vars: seq<(string, string)>) {
    exists j :: 0 <= j < |vars| && vars[j] == (name, v) && !Names(name, vars[..j])
  }

  /** The innermost list that names the variable gives it value v. */
  ghost predicate Bound(name: string, v: string, env: Env) {
    exists i :: 0 <= i < |env| && Gives(name, v, env[i].vars) && forall k | 0 <= k < i :: !Names(name, env[k].vars)
  }

  ghost predicate Unbound(name: string, env: Env) { forall k | 0 <= k < |env| :: !Names(name, env[k].vars) }

  predicate NamesLoop(name: string, loops: seq<LoopVar>) {
    exists j :: 0 <= j < |loops| && loops[j].name == name
  }

  predicate GivesLoop(name: string, loop: LoopVar, loops: seq<LoopVar>) {
    exists j :: 0 <= j < |loops| && loops[j] == loop && loop.name == name && !NamesLoop(name, loops[..j])
  }

  /** The i-th list decides. */
  ghost predicate LoopFrom(name: string, loop: LoopVar, env: Env, i: nat) {
    i < |env| && GivesLoop(name, loop, env[i].loops) && forall k | 0 <= k < i :: !NamesLoop(name, env[k].loops)
  }

  /** The innermost list that has a loop variable of that name has this one first; its items see the
      lists from there on. */
  ghost predicate LoopBound(name: string, loop: LoopVar, scope: Env, env: Env) {
    exists i: nat :: LoopFrom(name, loop, env, i) && i < |env| && scope == env[i..]
  }

  ghost predicate NoLoop(name: string, env: Env) { forall k | 0 <= k < |env| :: !NamesLoop(name, env[k].loops) }

  lemma {:induction false} FirstValueMeans(name: string, vars: seq<(string, string)>)
    ensures FirstValue(name, vars).Some? <==> Names(name, vars)
    ensures forall v :: FirstValue(name, vars) == Some(v) <==> Gives(name, v, vars)
  {
    if vars != [] {
      FirstValueMeans(name, vars[1..]);
      forall v ensures FirstValue(name, vars) == Some(v) <==> Gives(name, v, vars) {
        GivesRest(name, v, vars);
      }
      if Names(name, vars) && vars[0].0 != name {
        var j :| 0 <= j < |vars| && vars[j].0 == name;
        assert vars[1..][j - 1].0 == name;
      }
    }
  }

  lemma NamesCons(name: string, x: (string, string), vars: seq<(string, string)>)
    ensures Names(name, [x] + vars) <==> x.0 == name || Names(name, vars)
  {
    var all := [x] + vars;
    assert all[0] == x;
    if Names(name, vars) {
      var j :| 0 <= j < |vars| && vars[j].0 == name;
      assert all[j + 1].0 == name;
    }
    if Names(name, all) && x.0 != name {
      var j :| 0 <= j < |all| && all[j].0 == name;
      assert vars[j - 1].0 == name;
    }
  }

  lemma GivesRest(name: string, v: string, vars: seq<(string, string)>)
    requires vars != []
    ensures Gives(name, v, vars) <==> if vars[0].0 == name then vars[0].1 == v else Gives(name, v, vars[1..])
  {
    var rest := vars[1..];
    assert !Names(name, vars[..0]);
    hide Names;
    if Gives(name, v, vars) {
      var j :| 0 <= j < |vars| && vars[j] == (name, v) && !Names(name, vars[..j]);
      if j > 0 {
        assert vars[..j] == [vars[0]] + rest[..j - 1];
        NamesCons(name, vars[0], rest[..j - 1]);
        assert rest[j - 1] == (name, v);
      }
    }
    if vars[0].0 != name && Gives(name, v, rest) {
      var j :| 0 <= j < |rest| && rest[j] == (name, v) && !Names(name, rest[..j]);
      assert vars[..j + 1] == [vars[0]] + rest[..j];
      NamesCons(name, vars[0], rest[..j]);
      assert vars[j + 1] == (name, v);
    }
  }

  /** The search for a value finds the latest entry of the innermost list that has one, and nothing
      exactly when there is none. */
  lemma {:induction false} ValueIsBound(name: string, env: Env)
    ensures ValueOf(name, env).None? <==> Unbound(name, env)
    ensures forall v :: ValueOf(name, env) == Some(v) <==> Bound(name, v, env)
  {
    hide Names, Gives, FirstValue;
    if env != [] {
      var rest := env[1..];
      FirstValueMeans(name, env[0].vars);
      ValueIsBound(name, rest);
      assert Unbound(name, env) <==> !Names(name, env[0].vars) && Unbound(name, rest) by {
        assert forall k | 0 < k < |env| :: env[k] == rest[k - 1];
      }
      forall v ensures ValueOf(name, env) == Some(v) <==> Bound(name, v, env) { BoundRest(name, v, env); }
    }
  }

  lemma BoundRest(name: string, v: string, env: Env)
    requires env != []
    ensures Bound(name, v, env) <==>
              if Names(name, env[0].vars) then Gives(name, v, env[0].vars) else Bound(name, v, env[1..])
  {
    hide Names;
    var rest := env[1..];
    GivesNames(name, v, env[0].vars);
    if Bound(name, v, env) {
      var i :| 0 <= i < |env| && Gives(name, v, env[i].vars) && forall k | 0 <= k < i :: !Names(name, env[k].vars);
      if i > 0 {
        assert rest[i - 1] == env[i];
        assert forall k | 0 <= k < i - 1 :: rest[k] == env[k + 1];
      }
    }
    if !Names(name, env[0].vars) && Bound(name, v, rest) {
      var i :| 0 <= i < |rest| && Gives(name, v, rest[i].vars) && forall k | 0 <= k < i :: !Names(name, rest[k].vars);
      assert env[i + 1] == rest[i];
      assert forall k | 0 < k < i + 1 :: env[k] == rest[k - 1];
    }
  }

  lemma GivesNames(name: string, v: string, vars: seq<(string, string)>)
    ensures Gives(name, v, vars) ==> Names(name, vars)
  {
  }

  lemma {:induction false} FirstLoopMeans(name: string, loops: seq<LoopVar>)
    ensures FirstLoop(name, loops).Some? <==> NamesLoop(name, loops)
    ensures forall l :: FirstLoop(name, loops) == Some(l) <==> GivesLoop(name, l, loops)
  {
    if loops != [] {
      FirstLoopMeans(name, loops[1..]);
      forall l ensures FirstLoop(name, loops) == Some(l) <==> GivesLoop(name, l, loops) {
        GivesLoopRest(name, l, loops);
      }
      if NamesLoop(name, loops) && loops[0].name != name {
        var j :| 0 <= j < |loops| && loops[j].name == name;
        assert loops[1..][j - 1].name == name;
      }
    }
  }

  lemma NamesLoopCons(name: string, x: LoopVar, loops: seq<LoopVar>)
    ensures NamesLoop(name, [x] + loops) <==> x.name == name || NamesLoop(name, loops)
  {
    var all := [x] + loops;
    assert all[0] == x;
    if NamesLoop(name, loops) {
      var j :| 0 <= j < |loops| && loops[j].name == name;
      assert all[j + 1].name == name;
    }
    if NamesLoop(name, all) && x.name != name {
      var j :| 0 <= j < |all| && all[j].name == name;
      assert loops[j - 1].name == name;
    }
  }

  lemma GivesLoopRest(name: string, l: LoopVar, loops: seq<LoopVar>)
    requires loops != []
    ensures GivesLoop(name, l, loops) <==>
              if loops[0].name == name then loops[0] == l else GivesLoop(name, l, loops[1..])
  {
    var rest := loops[1..];
    assert !NamesLoop(name, loops[..0]);
    hide NamesLoop;
    if GivesLoop(name, l, loops) {
      var j :| 0 <= j < |loops| && loops[j] == l && l.name == name && !NamesLoop(name, loops[..j]);
      if j > 0 {
        assert loops[..j] == [loops[0]] + rest[..j - 1];
        NamesLoopCons(name, loops[0], rest[..j - 1]);
        assert rest[j - 1] == l;
      }
    }
    if loops[0].name != name && GivesLoop(name, l, rest) {
      var j :| 0 <= j < |rest| && rest[j] == l && l.name == name && !NamesLoop(name, rest[..j]);
      assert loops[..j + 1] == [loops[0]] + rest[..j];
      NamesLoopCons(name, loops[0], rest[..j]);
      assert loops[j + 1] == l;
    }
  }

  /** The search for a loop variable finds the latest one of the innermost list that has one, and the
      lists around it, and nothing exactly when there is none. */
  lemma {:induction false} LoopIsBound(name: string, env: Env)
    ensures FindLoop(name, env).None? <==> NoLoop(name, env)
    ensures forall l, scope :: FindLoop(name, env) == Some((l, scope)) <==> LoopBound(name, l, scope, env)
  {
    hide NamesLoop, GivesLoop, FirstLoop;
    if env != [] {
      var rest := env[1..];
      FirstLoopMeans(name, env[0].loops);
      LoopIsBound(name, rest);
      assert NoLoop(name, env) <==> !NamesLoop(name, env[0].loops) && NoLoop(name, rest) by {
        assert forall k | 0 < k < |env| :: env[k] == rest[k - 1];
      }
      forall l, scope ensures FindLoop(name, env) == Some((l, scope)) <==> LoopBound(name, l, scope, env) {
        LoopBoundRest(name, l, scope, env);
      }
    }
  }

  lemma LoopFromRest(name: string, l: LoopVar, env: Env, i: nat)
    requires env != []
    ensures LoopFrom(name, l, env, i + 1) <==> !NamesLoop(name, env[0].loops) && LoopFrom(name, l, env[1..], i)
    ensures LoopFrom(name, l, env, 0) <==> GivesLoop(name, l, env[0].loops)
  {
    hide NamesLoop, GivesLoop;
    var rest := env[1..];
    assert forall k | 0 <= k < |rest| :: rest[k] == env[k + 1];
    assert forall k | 0 < k < |env| :: env[k] == rest[k - 1];
  }

  lemma LoopBoundRest(name: string, l: LoopVar, scope: Env, env: Env)
    requires env != []
    ensures LoopBound(name, l, scope, env) <==>
              if NamesLoop(name, env[0].loops) then GivesLoop(name, l, env[0].loops) && scope == env
              else LoopBound(name, l, scope, env[1..])
  {
    hide NamesLoop, GivesLoop, LoopFrom;
    var rest := env[1..];
    GivesNamesLoop(name, l, env[0].loops);
    LoopFromRest(name, l, env, 0);
    assert env[0..] == env;
    if i: nat :| LoopFrom(name, l, env, i) && i < |env| && scope == env[i..] {
      if i > 0 {
        LoopFromRest(name, l, env, i - 1);
        assert rest[i - 1..] == env[i..];
      }
    }
    if i: nat :| LoopFrom(name, l, rest, i) && i < |rest| && scope == rest[i..] {
      LoopFromRest(name, l, env, i);
      assert env[i + 1..] == rest[i..];
    }
  }

  lemma GivesNamesLoop(name: string, l: LoopVar, loops: seq<LoopVar>)
    ensures GivesLoop(name, l, loops) ==> NamesLoop(name, loops)
  {
  }

  // ---------------------------------------------------------------- conditions

  /** Without a test value: a variable that is not empty, or, if there is no such variable, a loop. With
      an empty one: an empty variable, or neither. With any other: that value. */
  ghost predicate Meets(name: string, testval: Option<string>, env: Env) {
    match testval
    case None => (exists v :: v != "" && Bound(name, v, env)) || (Unbound(name, env) && !NoLoop(name, env))
    case Some(t) => Bound(name, t, env) || (t == "" && Unbound(name, env) && NoLoop(name, env))
  }

  lemma ConditionMeans(name: string, testval: Option<string>, env: Env)
    ensures IsTrue(name, testval, env) <==> Meets(name, testval, env)
  {
    hide Bound, Unbound, NoLoop, ValueOf, FindLoop;
    ValueIsBound(name, env);
    LoopIsBound(name, env);
    var value := ValueOf(name, env);
    if value.Some? { assert Bound(name, value.value, env); }
  }

  // ---------------------------------------------------------------- what nodes write

  lemma WalkFirst(files: Files, src: Source, file: string, depth: nat, nodes: seq<Node>, env: Env, w: Walked)
    requires nodes != [] && NodesLegal(src, depth, nodes)
    ensures NodesLegal(src, depth, [nodes[0]]) && NodesLegal(src, depth, nodes[1..])
    ensures Walk(files, src, file, depth, nodes, env, w)
         == Walk(files, src, file, depth, nodes[1..], env, Walk(files, src, file, depth, [nodes[0]], env, w))
  {
    hide ValueOk, OptionOk, WalkFile, WalkLoop, FindLoop, Holds, ShowVar, NewFilename;
    var one := [nodes[0]];
    assert one[1..] == [] && one[0] == nodes[0];
    assert NodeLegal(src, depth, nodes[0]);
    var w1 := Walk(files, src, file, depth, one, env, w);
    if Unwinding(w1) { NothingWalked(files, src, file, depth, nodes[1..], env, w1); }
  }

  lemma NothingWalked(files: Files, src: Source, file: string, depth: nat, nodes: seq<Node>, env: Env, w: Walked)
    requires NodesLegal(src, depth, nodes) && (nodes == [] || Unwinding(w))
    ensures Walk(files, src, file, depth, nodes, env, w) == w
  {
    hide NodesLegal;
  }

  /** Nodes in a row are walked one after the other. */
  lemma {:induction false} WalkAppend(files: Files, src: Source, file: string, depth: nat, a: seq<Node>, b: seq<Node>,
                                      env: Env, w: Walked)
    requires NodesLegal(src, depth, a) && NodesLegal(src, depth, b)
    ensures NodesLegal(src, depth, a + b)
    ensures Walk(files, src, file, depth, a + b, env, w)
         == Walk(files, src, file, depth, b, env, Walk(files, src, file, depth, a, env, w))
    decreases |a|
  {
    if a == [] {
      assert a + b == b;
    } else {
      hide Walk, NodeLegal;
      assert (a + b)[0] == a[0] && (a + b)[1..] == a[1..] + b;
      WalkFirst(files, src, file, depth, a, env, w);
      WalkFirst(files, src, file, depth, a + b, env, w);
      WalkAppend(files, src, file, depth, a[1..], b, env, Walk(files, src, file, depth, [a[0]], env, w));
    }
  }

  /** A condition writes exactly what the branch writes that its meaning selects. */
  lemma ConditionsChoose(files: Files, src: Source, file: string, depth: nat, tag: Tag, tbranch: seq<Node>,
                         fbranch: seq<Node>, env: Env, w: Walked)
    requires (tag.If? || tag.Elsif?) && NodesLegal(src, depth, [Cond(tag, tbranch, fbranch)])
    ensures NodesLegal(src, depth, tbranch) && NodesLegal(src, depth, fbranch)
    ensures Walk(files, src, file, depth, [Cond(tag, tbranch, fbranch)], env, w)
         == Walk(files, src, file, depth, if Meets(tag.name, tag.testval, env) then tbranch else fbranch, env, w)
  {
    hide Meets, IsTrue, Legal;
    var node := Cond(tag, tbranch, fbranch);
    assert NodeLegal(src, depth, [node][0]);
    ConditionMeans(tag.name, tag.testval, env);
    assert [node][1..] == [];
  }

  /** A variable writes its value, or else its default, or else nothing. */
  lemma VariablesShow(files: Files, src: Source, file: string, depth: nat, tag: Tag, env: Env, w: Walked)
    requires tag.Var? && NodesLegal(src, depth, [Leaf(tag)]) && !Unwinding(w)
    ensures var w' := Walk(files, src, file, depth, [Leaf(tag)], env, w);
            && w' == w.(out := w'.out)
            && (forall v | Bound(tag.name, v, env) :: w'.out == w.out + [Shown(v, tag.fmt)])
            && (Unbound(tag.name, env) ==>
                  w'.out == w.out + if tag.dflt.Some? then [Shown(tag.dflt.value, tag.fmt)] else [])
  {
    hide Bound, Unbound, ValueOf;
    ValueIsBound(tag.name, env);
    assert [Leaf(tag)][1..] == [];
  }

  /** A loop goes once over each item of the loop variable that its name is bound to, in order, and
      each round sees the item and the lists around the loop variable; without one it writes nothing. */
  lemma LoopsGoOver(files: Files, src: Source, file: string, depth: nat, name: string, body: seq<Node>, env: Env,
                    w: Walked)
    requires NodesLegal(src, depth, [Block(Loop(name), body)]) && !Unwinding(w)
    ensures NodesLegal(src, depth + 1, body)
    ensures var w' := Walk(files, src, file, depth, [Block(Loop(name), body)], env, w);
            && (NoLoop(name, env) ==> w' == w)
            && (forall l, scope | LoopBound(name, l, scope, env) ::
                  w' == WalkLoop(files, src, file, depth, body, l.items, scope, w))
  {
    hide LoopBound, NoLoop, FindLoop, Legal;
    var node := Block(Loop(name), body);
    assert NodeLegal(src, depth, [node][0]);
    LoopIsBound(name, env);
    assert [node][1..] == [];
  }

  /** Rounds that end without a jump or an error follow each other. */
  lemma RoundsFollow(files: Files, src: Source, file: string, depth: nat, body: seq<Node>, items: seq<VarList>,
                     scope: Env, w: Walked)
    requires NodesLegal(src, depth + 1, body) && items != []
    ensures var w1 := Walk(files, src, file, depth + 1, body, [items[0]] + scope, w);
            !Unwinding(w1) ==>
              WalkLoop(files, src, file, depth, body, items, scope, w)
              == WalkLoop(files, src, file, depth, body, items[1..], scope, w1)
  {
    hide NodesLegal, Walk;
  }

  // ---------------------------------------------------------------- a whole template

  /** A template that is one condition, as text: it writes the text that the condition selects. */
  lemma ConditionalIsWritten(files: Files, src: Source, file: string, tag: Tag, a: string, b: string, env: Env)
    requires tag.If?
    requires var nodes := [Cond(tag, [Leaf(Text(a))], [Leaf(Text(b))])];
             src.text == PrintTags(Flatten(nodes)) && NodesOk(src, 0, nodes)
    ensures Write(files, src, file, env)
         == Walked([Written(if Meets(tag.name, tag.testval, env) then a else b)], false, 0, 0)
  {
    hide NodesOk, Meets, Flatten, PrintTags, ParseTemplate;
    var yes, no := [Leaf(Text(a))], [Leaf(Text(b))];
    var nodes := [Cond(tag, yes, no)];
    assert ProperNode(nodes[0], false) by {
      assert forall i | 0 <= i < |yes| :: ProperNode(yes[i], false);
      assert forall i | 0 <= i < |no| :: ProperNode(no[i], false);
    }
    PrintedTreesAreParsed(src, nodes);
    ParsedTagsAreLegal(src);
    ConditionsChoose(files, src, file, 0, tag, yes, no, env, Walked([], false, 0, 0));
    TextIsWritten(files, src, file, a, env);
    TextIsWritten(files, src, file, b, env);
  }

  lemma TextIsWritten(files: Files, src: Source, file: string, text: string, env: Env)
    ensures NodesLegal(src, 0, [Leaf(Text(text))])
    ensures Walk(files, src, file, 0, [Leaf(Text(text))], env, Walked([], false, 0, 0))
         == Walked([Written(text)], false, 0, 0)
  {
    assert [Leaf(Text(text))][1..] == [];
  }

  // ---------------------------------------------------------------- included files

  predicate NoSlash(s: string) { forall i | 0 <= i < |s| :: s[i] != '/' }

  lemma {:induction false} LastSlashAt(dir: string, base: string)
    requires NoSlash(base)
    ensures LastSlash(dir + "/" + base) == |dir| + 1
  {
    var s := dir + "/" + base;
    if base == "" {
      assert s[|s| - 1] == '/';
    } else {
      var init := base[..|base| - 1];
      assert s[|s| - 1] == base[|base| - 1];
      assert s[..|s| - 1] == dir + "/" + init;
      LastSlashAt(dir, init);
    }
  }

  /** An included name is taken as it is; one that begins with ".../" lies in the directory of the
      including file, if that has one. */
  lemma IncludedNames(name: string, dir: string, base: string, rest: string)
    requires NoSlash(base)
    ensures !(".../" <= name) ==> NewFilename(name, base) == name && NewFilename(name, dir + "/" + base) == name
    ensures NewFilename(".../" + rest, base) == rest
    ensures NewFilename(".../" + rest, dir + "/" + base) == dir + "/" + rest
  {
    hide LastSlash;
    LastSlashAt(dir, base);
    var incl, parent := ".../" + rest, dir + "/" + base;
    assert incl[..4] == ".../" && incl[4..] == rest;
    assert parent[|dir|] == '/';
    assert parent[..|dir| + 1] == dir + "/";
    assert '/' !in base;
  }

  /** The file that the machine is in, and each that includes it, up to the first. */
  predicate Nested(files: Files, src: Source, file: string, at: Source, name: string, stack: seq<Frame>)
    decreases |stack|
  {
    if stack == [] then at == src && name == file
    else
      match stack[0]
      case LoopFrame(_, _, _, _, _) => Nested(files, src, file, at, name, stack[1..])
      case FileFrame(outer, outerName, _, _) =>
        && name in files && at == Source(files[name], outer.fmts, outer.includeDepth + 1)
        && Nested(files, src, file, outer, outerName, stack[1..])
  }

  function Includes(stack: seq<Frame>): nat {
    if stack == [] then 0 else Includes(stack[1..]) + (if stack[0].FileFrame? then 1 else 0)
  }

  lemma {:induction false} NestedWithoutLoops(files: Files, src: Source, file: string, at: Source, name: string,
                                              stack: seq<Frame>, n: nat)
    requires LoopsOnTop(stack, n)
    ensures Nested(files, src, file, at, name, stack) == Nested(files, src, file, at, name, stack[n..])
    decreases n
  {
    if n == 0 {
      assert stack[0..] == stack;
    } else {
      NestedWithoutLoops(files, src, file, at, name, stack[1..], n - 1);
      assert stack[1..][n - 1..] == stack[n..];
    }
  }

  predicate InFile(files: Files, src: Source, file: string, c: Config) {
    c.Running? ==> Nested(files, src, file, c.src, c.file, c.stack)
  }

  lemma StepStaysInFile(files: Files, src: Source, file: string, c: Config)
    requires InFile(files, src, file, c) && Step(files, c).Some?
    ensures InFile(files, src, file, Step(files, c).value)
  {
    hide ParseTemplate, NewFilename, ShowVar, Holds, FindLoop;
    var c' := Step(files, c).value;
    if c.nodes != [] && c.nodes[0].Leaf? && (c.nodes[0].tag.Break? || c.nodes[0].tag.Continue?) {
      var n := c.nodes[0].tag.level;
      NestedWithoutLoops(files, src, file, c.src, c.file, c.stack, n);
      NestedWithoutLoops(files, src, file, c.src, c.file, c.stack, n - 1);
    } else if c.nodes == [] && c.stack != [] && c.stack[0].LoopFrame? && c.stack[0].items != [] {
      assert c'.stack[1..] == c.stack[1..];
    } else if c'.Running? && |c'.stack| > |c.stack| {
      assert c'.stack[1..] == c.stack;
    }
  }

  lemma {:induction false} StepsStayInFile(files: Files, src: Source, file: string, c: Config, k: nat)
    requires InFile(files, src, file, c) && Steps(files, c, k).Some?
    ensures InFile(files, src, file, Steps(files, c, k).value)
    decreases k
  {
    hide InFile, Step;
    if k > 0 {
      StepStaysInFile(files, src, file, c);
      StepsStayInFile(files, src, file, Step(files, c).value, k - 1);
    }
  }

  lemma {:induction false} NestedDepth(files: Files, src: Source, file: string, at: Source, name: string,
                                       stack: seq<Frame>)
    requires Nested(files, src, file, at, name, stack)
    ensures at.includeDepth == src.includeDepth + Includes(stack) && at.fmts == src.fmts
    decreases |stack|
  {
    if stack != [] {
      match stack[0]
      case LoopFrame(_, _, _, _, _) => NestedDepth(files, src, file, at, name, stack[1..]);
      case FileFrame(outer, outerName, _, _) => NestedDepth(files, src, file, outer, outerName, stack[1..]);
    }
  }

  /** Wherever the machine is: it reads the contents of the file it is in, with the format functions of
      the first template, and counts as deep as there are files around it; back from an included file
      it is in the including one. */
  lemma IncludesNest(files: Files, src: Source, file: string, env: Env, c: Config)
    requires Reaches(files, Begin(src, file, env), c) && c.Running?
    ensures Nested(files, src, file, c.src, c.file, c.stack)
    ensures c.src.includeDepth == src.includeDepth + Includes(c.stack) && c.src.fmts == src.fmts
  {
    hide ParseTemplate, Steps;
    var k: nat :| Steps(files, Begin(src, file, env), k) == Some(c);
    StepsStayInFile(files, src, file, Begin(src, file, env), k);
    NestedDepth(files, src, file, c.src, c.file, c.stack);
  }
}
