/** walk(): the tree-walking interpreter, with its break and continue flags. */
module TemplateWalk {
  import opened Prelude
  import opened TemplateScanner
  import opened TemplateParser
  import opened TemplateTrees

  // ---------------------------------------------------------------- variables

  /** A TMPL_varlist with its simple variables and loop variables, latest addition first. */
  datatype VarList = VarList(vars: seq<(string, string)>, loops: seq<LoopVar>)

  datatype LoopVar = LoopVar(name: string, items: seq<VarList>)

  /** A variable list with the lists that enclose it, innermost first; [] is the null list. */
  type Env = seq<VarList>

  function FirstValue(name: string, vars: seq<(string, string)>): Option<string> {
    if vars == [] then None
    else if vars[0].0 == name then Some(vars[0].1)
    else FirstValue(name, vars[1..])
  }

  function FirstLoop(name: string, loops: seq<LoopVar>): Option<LoopVar> {
    if loops == [] then None
    else if loops[0].name == name then Some(loops[0])
    else FirstLoop(name, loops[1..])
  }

  function ValueOf(name: string, env: Env): Option<string> {
    if env == [] then None
    else if FirstValue(name, env[0].vars).Some? then FirstValue(name, env[0].vars)
    else ValueOf(name, env[1..])
  }

  /** The loop variable and the lists that enclose its items. */
  function FindLoop(name: string, env: Env): Option<(LoopVar, Env)> {
    if env == [] then None
    else
      var l := FirstLoop(name, env[0].loops);
      if l.Some? then Some((l.value, env)) else FindLoop(name, env[1..])
  }

  function IsTrue(name: string, testval: Option<string>, env: Env): bool {
    var value := ValueOf(name, env);
    var loop := if value.None? then FindLoop(name, env) else None;
    || (testval.None? && value.Some? && value.value != "")
    || (testval.None? && loop.Some?)
    || (testval == Some("") && loop.None? && (value.None? || value.value == ""))
    || (testval.Some? && value.Some? && value.value == testval.value)
  }

  function Holds(tag: Tag, env: Env): bool {
    match tag
    case If(name, testval) => IsTrue(name, testval, env)
    case Elsif(name, testval) => IsTrue(name, testval, env)
    case _ => false
  }

  // ---------------------------------------------------------------- files and output

  /** What is written to the output: template text, or a value by its format function. */
  datatype Event = Written(text: string) | Shown(value: string, fmt: Option<string>)

  function LastSlash(s: string): nat {
    if s == "" then 0 else if s[|s| - 1] == '/' then |s| else LastSlash(s[..|s| - 1])
  }

  /** A name that begins with ".../" is taken relative to the including file. */
  function NewFilename(incl: string, parent: string): string
  {
    if |incl| < 4 || incl[..4] != ".../" then incl
    else if '/' in parent then parent[..Min(LastSlash(parent), |parent|)] + incl[4..]
    else incl[4..]
  }

  function Min(a: nat, b: nat): nat { if a < b then a else b }

  type Files = map<string, CString>

  // ---------------------------------------------------------------- walk()

  /** The template variables that walk() changes, and the output so far. */
  datatype Walked = Walked(out: seq<Event>, error: bool, breakLevel: nat, contLevel: nat)

  predicate Unwinding(w: Walked) { w.breakLevel > 0 || w.contLevel > 0 || w.error }

  function ShowVar(tag: Tag, env: Env): seq<Event>
    requires tag.Var?
  {
    var value := ValueOf(tag.name, env);
    if value.Some? then [Shown(value.value, tag.fmt)]
    else if tag.dflt.Some? then [Shown(tag.dflt.value, tag.fmt)]
    else []
  }

  /** An included file as a template of its own. */
  function Included(src: Source, text: CString): Source {
    Source(text, src.fmts, src.includeDepth + 1)
  }

  const NO_NODES: seq<Node> := []

  /** `depth` is the number of loops around the nodes in their file. */
  function Walk(files: Files, src: Source, file: string, ghost depth: nat, nodes: seq<Node>, env: Env,
                w: Walked): Walked
    requires NodesLegal(src, depth, nodes)
    decreases MAX_INCLUDE_DEPTH - src.includeDepth, nodes, 0
  {
    if nodes == [] || Unwinding(w) then w
    else
      match nodes[0]
      case Cond(tag, tbranch, fbranch) =>
        var w1 := Walk(files, src, file, depth, if Holds(tag, env) then tbranch else fbranch, env, w);
        Walk(files, src, file, depth, nodes[1..], env, w1)
      case Block(tag, body) =>
        var loop := if tag.Loop? then FindLoop(tag.name, env) else None;
        var w1 := if loop.None? then w
                  else WalkLoop(files, src, file, depth, body, loop.value.0.items, loop.value.1, w);
        Walk(files, src, file, depth, nodes[1..], env, w1)
      case Leaf(tag) =>
        match tag
        case Break(level) => w.(breakLevel := level)
        case Continue(level) => w.(contLevel := level)
        case Text(text) => Walk(files, src, file, depth, nodes[1..], env, w.(out := w.out + [Written(text)]))
        case Var(_, _, _) => Walk(files, src, file, depth, nodes[1..], env, w.(out := w.out + ShowVar(tag, env)))
        case Include(name) =>
          assert nodes[|nodes|..] == NO_NODES;
          var w1 := WalkFile(files, src, file, NewFilename(name, file), env, w);
          Walk(files, src, file, depth, nodes[1..], env, w1)
        case _ => Walk(files, src, file, depth, nodes[1..], env, w)
  }

  function WalkLoop(files: Files, src: Source, file: string, ghost depth: nat, body: seq<Node>,
                    items: seq<VarList>, scope: Env, w: Walked): Walked
    requires NodesLegal(src, depth + 1, body)
    decreases MAX_INCLUDE_DEPTH - src.includeDepth, body, 1 + |items|
  {
    if items == [] then w
    else
      var w1 := Walk(files, src, file, depth + 1, body, [items[0]] + scope, w);
      if w1.breakLevel > 0 then w1.(breakLevel := w1.breakLevel - 1)
      else if w1.contLevel > 1 then w1.(contLevel := w1.contLevel - 1)
      else WalkLoop(files, src, file, depth, body, items[1..], scope, w1.(contLevel := 0))
  }

  /** Read, parse and walk an included file; only its error and its output come back. */
  function WalkFile(files: Files, src: Source, file: string, name: string, env: Env, w: Walked): Walked
    requires src.includeDepth < MAX_INCLUDE_DEPTH
    decreases MAX_INCLUDE_DEPTH - src.includeDepth, NO_NODES, 0
  {
    if name !in files then w.(error := true)
    else
      var inner := Included(src, files[name]);
      ParsedTagsAreLegal(inner);
      var (nodes, st) := ParseTemplate(inner);
      var w1 := Walk(files, inner, name, 0, nodes, env, Walked(w.out, st.error, 0, 0));
      w.(out := w1.out, error := w1.error)
  }

  /** TMPL_write(): what is written, and whether it failed. */
  function Write(files: Files, src: Source, file: string, env: Env): Walked {
    ParsedTagsAreLegal(src);
    var (nodes, st) := ParseTemplate(src);
    Walk(files, src, file, 0, nodes, env, Walked([], st.error, 0, 0))
  }
}
