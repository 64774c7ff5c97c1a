/** walk() and TMPL_write() on template objects, with the flags as fields. */
module TemplateWriter {
  import opened Prelude
  import Spec = TemplateWalk
  import opened TemplateScanner
  import opened TemplateParser
  import opened TemplateTrees
  import opened TemplateWalk
  import opened TemplateObjects

  /** The part of struct template that walk() uses. */
  class Writer {
    const files: Files
    const src: Source
    const file: string
    var out: seq<Event>
    var error: bool
    var breakLevel: nat
    var contLevel: nat

    ghost function State(): Walked
      reads this
    {
      Walked(out, error, breakLevel, contLevel)
    }

    constructor (files: Files, src: Source, file: string, out: seq<Event>, error: bool)
      ensures this.files == files && this.src == src && this.file == file
      ensures State() == Walked(out, error, 0, 0)
    {
      this.files, this.src, this.file := files, src, file;
      this.out, this.error := out, error;
      breakLevel, contLevel := 0, 0;
    }

    method Walk(ghost depth: nat, nodes: seq<Node>, env: Env)
      requires NodesLegal(src, depth, nodes)
      modifies this
      ensures State() == Spec.Walk(files, src, file, depth, nodes, env, old(State()))
      decreases MAX_INCLUDE_DEPTH - src.includeDepth, nodes, 0
    {
      hide Legal, NewFilename;
      if nodes == [] || breakLevel > 0 || contLevel > 0 || error {
        return;
      }
      match nodes[0] {
        case Cond(tag, tbranch, fbranch) =>
          if Holds(tag, env) {
            Walk(depth, tbranch, env);
          } else {
            Walk(depth, fbranch, env);
          }
        case Block(tag, body) =>
          var loop := if tag.Loop? then FindLoop(tag.name, env) else None;
          if loop.Some? {
            WalkLoop(depth, body, loop.value.0.items, loop.value.1);
          }
        case Leaf(tag) =>
          if tag.Break? {
            breakLevel := tag.level;
            return;
          }
          if tag.Continue? {
            contLevel := tag.level;
            return;
          }
          if tag.Text? {
            out := out + [Written(tag.text)];
          } else if tag.Var? {
            out := out + ShowVar(tag, env);
          } else if tag.Include? {
            assert NodeLegal(src, depth, nodes[0]);
            IncludeBelowLimit(src, depth, nodes[0]);
            assert nodes[|nodes|..] == NO_NODES;
            WalkFile(NewFilename(tag.filename, file), env);
          }
      }
      Walk(depth, nodes[1..], env);
    }

    method WalkLoop(ghost depth: nat, body: seq<Node>, items: seq<VarList>, scope: Env)
      requires NodesLegal(src, depth + 1, body)
      modifies this
      ensures State() == Spec.WalkLoop(files, src, file, depth, body, items, scope, old(State()))
      decreases MAX_INCLUDE_DEPTH - src.includeDepth, body, 1
    {
      hide Legal, Spec.Walk;
      var i := 0;
      while i < |items|
        invariant i <= |items|
        invariant Spec.WalkLoop(files, src, file, depth, body, items[i..], scope, State())
               == Spec.WalkLoop(files, src, file, depth, body, items, scope, old(State()))
      {
        Walk(depth + 1, body, [items[i]] + scope);
        if breakLevel > 0 {
          breakLevel := breakLevel - 1;
          return;
        }
        if contLevel > 0 {
          contLevel := contLevel - 1;
          if contLevel > 0 {
            return;
          }
        }
        i := i + 1;
      }
    }

    /** Open, parse and walk an included file. */
    method WalkFile(name: string, env: Env)
      requires src.includeDepth < MAX_INCLUDE_DEPTH
      modifies this
      ensures State() == Spec.WalkFile(files, src, file, name, env, old(State()))
      decreases MAX_INCLUDE_DEPTH - src.includeDepth, NO_NODES, 0
    {
      hide Legal, ParseList, Spec.Walk;
      if name !in files {
        error := true;
        return;
      }
      var inner := Included(src, files[name]);
      ParsedTagsAreLegal(inner);
      var t := new Template(inner);
      var nodes := t.ParseList(NO_STOPS);
      var w := new Writer(files, inner, name, out, t.error);
      w.Walk(0, nodes, env);
      out := w.out;
      error := w.error;
    }
  }

  lemma IncludeBelowLimit(src: Source, depth: nat, node: Node)
    requires NodeLegal(src, depth, node) && node.tag.Include?
    ensures src.includeDepth < MAX_INCLUDE_DEPTH
  {
  }

  /** TMPL_write(): true for success. */
  method Write(files: Files, src: Source, file: string, env: Env) returns (ok: bool, out: seq<Event>)
    ensures var w := Spec.Write(files, src, file, env); ok == !w.error && out == w.out
  {
    hide Legal, ParseList, Spec.Walk;
    ParsedTagsAreLegal(src);
    var t := new Template(src);
    var nodes := t.ParseList(NO_STOPS);
    var w := new Writer(files, src, file, [], t.error);
    w.Walk(0, nodes, env);
    return !w.error, w.out;
  }
}
