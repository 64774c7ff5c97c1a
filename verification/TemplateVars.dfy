/** Template variables: variable lists and loop variables that point at their parents. */
module TemplateVars {
  import opened Prelude
  import W = TemplateWalk

  /** A TMPL_varlist. */
  class VarList {
    var vars: seq<(string, string)>
    var loops: seq<LoopVar>
    var parent: LoopVar?

    constructor ()
      ensures vars == [] && loops == [] && parent == null
    {
      vars, loops, parent := [], [], null;
    }
  }

  /** A TMPL_loop. */
  class LoopVar {
    var name: string
    var items: seq<VarList>
    var parent: VarList?

    constructor ()
      ensures name == "" && items == [] && parent == null
    {
      name, items, parent := "", [], null;
    }
  }

  predicate NoDuplicates<T(==)>(s: seq<T>) { forall i, j | 0 <= i < j < |s| :: s[i] != s[j] }

  /** All variable lists and loop variables a program has made. */
  class Variables {
    ghost var lists: set<VarList>
    ghost var loops: set<LoopVar>

    /** Every parent ranks higher than its children, which is possible only without a cycle. */
    ghost var rank: map<object, nat>
    ghost var top: nat

    ghost predicate Ranked()
      reads this, lists, loops
    {
      && (forall l <- lists :: l in rank && rank[l] <= top)
      && (forall v <- loops :: v in rank && rank[v] <= top)
      && (forall l <- lists :: l.parent != null ==> l.parent in loops && rank[l] < rank[l.parent])
      && (forall v <- loops :: v.parent != null ==> v.parent in lists && rank[v] < rank[v.parent])
    }

    /** Any assignment of ranks that agrees with the parents as they are. */
    ghost predicate Ranking(r: map<object, nat>)
      reads this, lists, loops
    {
      && (forall l <- lists :: l in r && (l.parent != null && l.parent in r ==> r[l] < r[l.parent]))
      && (forall v <- loops :: v in r && (v.parent != null && v.parent in r ==> r[v] < r[v.parent]))
    }

    /** Children and parents know each other. */
    ghost predicate Linked()
      reads this, lists, loops
    {
      && (forall l <- lists :: l.parent != null && l.parent in loops ==> l in l.parent.items)
      && (forall v <- loops :: v.parent != null && v.parent in lists ==> v in v.parent.loops)
      && (forall l <- lists :: NoDuplicates(l.loops) && forall v <- l.loops :: v in loops && v.parent == l)
      && (forall v <- loops :: NoDuplicates(v.items) && forall l <- v.items :: l in lists && l.parent == v)
    }

    /** The parent graph is a forest. */
    ghost predicate Valid()
      reads this, lists, loops
    {
      Ranked() && Linked()
    }

    constructor ()
      ensures Valid() && lists == {} && loops == {}
    {
      lists, loops, rank, top := {}, {}, map[], 0;
    }

    // -------------------------------------------------------------- what encloses a list

    /** The loop variables around a list, innermost first. */
    ghost function Enclosing(l: VarList): (e: seq<LoopVar>)
      requires Ranked() && l in lists
      reads this, lists, loops
      ensures forall v <- e :: v in loops && rank[l] < rank[v]
      decreases top - rank[l]
    {
      if l.parent == null then []
      else if l.parent.parent == null then [l.parent]
      else [l.parent] + Enclosing(l.parent.parent)
    }

    /** The variable lists around a loop variable, innermost first. */
    ghost function Around(v: LoopVar): (e: seq<VarList>)
      requires Ranked() && v in loops
      reads this, lists, loops
      ensures forall l <- e :: l in lists && rank[v] < rank[l]
      decreases top - rank[v]
    {
      if v.parent == null then []
      else if v.parent.parent == null then [v.parent]
      else [v.parent] + Around(v.parent.parent)
    }

    /** The refusals are needed: no ranking at all has room for a loop variable below a list it
        encloses, ... */
    lemma {:induction false} LoopWouldCloseCycle(l: VarList, v: LoopVar, r: map<object, nat>)
      requires Ranked() && Ranking(r) && l in lists && v in Enclosing(l)
      ensures v in r && l in r && r[l] < r[v]
      decreases top - rank[l]
    {
      if l.parent != v { LoopWouldCloseCycle(l.parent.parent, v, r); }
    }

    /** ... or for a list below a loop variable it encloses. */
    lemma {:induction false} ListWouldCloseCycle(v: LoopVar, l: VarList, r: map<object, nat>)
      requires Ranked() && Ranking(r) && v in loops && l in Around(v)
      ensures v in r && l in r && r[v] < r[l]
      decreases top - rank[v]
    {
      if v.parent != l { ListWouldCloseCycle(v.parent.parent, l, r); }
    }

    // -------------------------------------------------------------- making and attaching

    method NewList() returns (l: VarList)
      requires Valid()
      modifies this
      ensures Valid() && fresh(l) && lists == old(lists) + {l} && loops == old(loops)
      ensures l.vars == [] && l.loops == [] && l.parent == null && rank[l] == 0
      ensures top == old(top) && forall x <- old(rank) :: x in rank && rank[x] == old(rank)[x]
    {
      l := new VarList();
      lists := lists + {l};
      rank := rank[l := 0];
    }

    method NewLoop() returns (v: LoopVar)
      requires Valid()
      modifies this
      ensures Valid() && fresh(v) && loops == old(loops) + {v} && lists == old(lists)
      ensures v.items == [] && v.parent == null && rank[v] == 0
      ensures top == old(top) && forall x <- old(rank) :: x in rank && rank[x] == old(rank)[x]
    {
      v := new LoopVar();
      loops := loops + {v};
      rank := rank[v := 0];
    }

    /** TMPL_add_var with the names and values before the first null. */
    method AddVar(varlist: VarList?, pairs: seq<(string, string)>) returns (r: VarList?)
      requires Valid() && (varlist != null ==> varlist in lists)
      modifies this, lists
      ensures Valid() && loops == old(loops)
      ensures r == null <==> varlist == null && pairs == []
      ensures varlist != null ==> r == varlist && lists == old(lists)
      ensures r != null ==> r in lists && r.vars == Reversed(pairs) + if varlist != null then old(varlist.vars) else []
      ensures varlist == null && r != null ==> fresh(r) && r.parent == null && r.loops == []
      ensures forall l <- old(lists) :: l.loops == old(l.loops) && l.parent == old(l.parent)
      ensures forall l <- old(lists) :: l != varlist ==> l.vars == old(l.vars)
    {
      r := varlist;
      if pairs == [] { return; }
      if r == null { r := NewList(); }
      PushVars(r, pairs);
    }

    /** Each variable goes to the front of the list. */
    static method PushVars(l: VarList, pairs: seq<(string, string)>)
      modifies l`vars
      ensures l.vars == Reversed(pairs) + old(l.vars)
    {
      var i := 0;
      while i < |pairs|
        invariant 0 <= i <= |pairs| && l.vars == Reversed(pairs[..i]) + old(l.vars)
      {
        assert pairs[..i + 1][..i] == pairs[..i];
        l.vars := [pairs[i]] + l.vars;
        i := i + 1;
      }
      assert pairs[..i] == pairs;
    }

    /** The walk up the parents that looks for a cycle; `above` collects the nodes it passes. */
    method IsAround(varlist: VarList, loop: LoopVar) returns (found: bool, ghost above: set<object>)
      requires Ranked() && varlist in lists
      ensures found <==> loop in Enclosing(varlist)
      ensures !found ==> varlist in above && loop !in above
      ensures !found ==> forall l <- lists :: l in above && l.parent != null ==> l.parent in above
      ensures !found ==> forall v <- loops :: v in above && v.parent != null ==> v.parent in above
    {
      above := {varlist};
      var lp := varlist.parent;
      ghost var at: VarList? := varlist;
      while lp != null
        invariant at != null ==> at in lists && at in above && lp == at.parent
        invariant at == null ==> lp == null
        invariant loop in Enclosing(varlist) <==> at != null && loop in Enclosing(at)
        invariant varlist in above && loop !in above
        invariant forall l <- lists :: l in above && l != at && l.parent != null ==> l.parent in above
        invariant forall v <- loops :: v in above && v.parent != null ==> v.parent in above
        decreases if at == null then 0 else top - rank[at] + 1
      {
        if lp == loop { return true, above; }
        above := above + {lp};
        if lp.parent != null { above := above + {lp.parent}; }
        at := lp.parent;
        lp := if lp.parent == null then null else lp.parent.parent;
      }
      found := false;
    }

    /** Raises the ranks of everything around a list above that of a node that is not among them. */
    ghost method Lift(above: set<object>, height: nat)
      requires Valid()
      requires forall l <- lists :: l in above && l.parent != null ==> l.parent in above
      requires forall v <- loops :: v in above && v.parent != null ==> v.parent in above
      modifies `rank, `top
      ensures Valid() && top == old(top) + height
      ensures forall x <- old(rank) :: x in rank && rank[x] == old(rank)[x] + if x in above then height else 0
    {
      rank := map x | x in rank :: rank[x] + if x in above then height else 0;
      top := top + height;
    }

    /** Links a loop variable into a list that ranks higher. */
    method HangLoop(l: VarList, name: string, loop: LoopVar)
      requires Valid() && l in lists && loop in loops && loop.parent == null && rank[loop] < rank[l]
      modifies loop`name, loop`parent, l`loops
      ensures Valid() && loop.parent == l && loop.name == name && l.loops == [loop] + old(l.loops)
    {
      assert loop !in l.loops;
      loop.name := name;
      loop.parent := l;
      l.loops := [loop] + l.loops;
    }

    /** TMPL_add_loop: declined if the loop variable hangs somewhere already, or if it encloses the
        list; else it becomes the first loop variable of the list. */
    method AddLoop(varlist: VarList?, name: Option<string>, loop: LoopVar?) returns (r: VarList?)
      requires Valid() && (varlist != null ==> varlist in lists) && (loop != null ==> loop in loops)
      modifies this, lists, loops
      ensures Valid() && loops == old(loops)
      ensures varlist != null ==> r == varlist && lists == old(lists)
      ensures varlist == null ==>
                if name.None? || loop == null || old(loop.parent) != null then r == null && lists == old(lists)
                else fresh(r) && lists == old(lists) + {r} && r.vars == [] && r.parent == null
      ensures if name.Some? && loop != null && old(loop.parent) == null
                 && (varlist != null ==> loop !in old(Enclosing(varlist)))
              then && r != null && loop.parent == r && loop.name == name.value
                   && r.loops == [loop] + if varlist != null then old(varlist.loops) else []
              else && (loop != null ==> loop.parent == old(loop.parent) && loop.name == old(loop.name))
                   && (varlist != null ==> varlist.loops == old(varlist.loops))
      ensures forall l <- old(lists) :: l.vars == old(l.vars) && l.parent == old(l.parent)
      ensures forall l <- old(lists) :: l != varlist ==> l.loops == old(l.loops)
      ensures forall v <- loops :: v.items == old(v.items)
      ensures forall v <- loops :: v != loop ==> v.parent == old(v.parent) && v.name == old(v.name)
    {
      hide Linked;
      r := varlist;
      if name.None? || loop == null || loop.parent != null { return; }
      if r == null { r := NewList(); }
      var found, above := IsAround(r, loop);
      if found { return; }
      Lift(above, rank[loop] + 1);
      HangLoop(r, name.value, loop);
    }

    /** The walk up the parents that looks for a cycle in the other direction. */
    method IsAroundLoop(loop: LoopVar, varlist: VarList) returns (found: bool, ghost above: set<object>)
      requires Ranked() && loop in loops
      ensures found <==> varlist in Around(loop)
      ensures !found ==> loop in above && varlist !in above
      ensures !found ==> forall l <- lists :: l in above && l.parent != null ==> l.parent in above
      ensures !found ==> forall v <- loops :: v in above && v.parent != null ==> v.parent in above
    {
      above := {loop};
      var vl := loop.parent;
      ghost var at: LoopVar? := loop;
      while vl != null
        invariant at != null ==> at in loops && at in above && vl == at.parent
        invariant at == null ==> vl == null
        invariant varlist in Around(loop) <==> at != null && varlist in Around(at)
        invariant loop in above && varlist !in above
        invariant forall v <- loops :: v in above && v != at && v.parent != null ==> v.parent in above
        invariant forall l <- lists :: l in above && l.parent != null ==> l.parent in above
        decreases if at == null then 0 else top - rank[at] + 1
      {
        if vl == varlist { return true, above; }
        above := above + {vl};
        if vl.parent != null { above := above + {vl.parent}; }
        at := vl.parent;
        vl := if vl.parent == null then null else vl.parent.parent;
      }
      found := false;
    }

    /** Links a variable list into a loop variable that ranks higher. */
    method HangList(loop: LoopVar, varlist: VarList)
      requires Valid() && loop in loops && varlist in lists && varlist.parent == null && rank[varlist] < rank[loop]
      modifies varlist`parent, loop`items
      ensures Valid() && varlist.parent == loop && loop.items == old(loop.items) + [varlist]
    {
      assert varlist !in loop.items;
      varlist.parent := loop;
      loop.items := loop.items + [varlist];
    }

    /** TMPL_add_varlist: declined if the list hangs somewhere already, or if it encloses the loop
        variable; else it becomes the last item of the loop variable. */
    method AddVarList(loop: LoopVar?, varlist: VarList?) returns (r: LoopVar?)
      requires Valid() && (varlist != null ==> varlist in lists) && (loop != null ==> loop in loops)
      modifies this, lists, loops
      ensures Valid() && lists == old(lists)
      ensures loop != null ==> r == loop && loops == old(loops)
      ensures loop == null ==>
                if varlist == null || old(varlist.parent) != null then r == null && loops == old(loops)
                else fresh(r) && loops == old(loops) + {r} && r.parent == null
      ensures if varlist != null && old(varlist.parent) == null && (loop != null ==> varlist !in old(Around(loop)))
              then && r != null && varlist.parent == r
                   && r.items == (if loop != null then old(loop.items) else []) + [varlist]
              else && (varlist != null ==> varlist.parent == old(varlist.parent))
                   && (loop != null ==> loop.items == old(loop.items))
      ensures forall v <- old(loops) :: v.name == old(v.name) && v.parent == old(v.parent)
      ensures forall v <- old(loops) :: v != loop ==> v.items == old(v.items)
      ensures forall l <- lists :: l.vars == old(l.vars) && l.loops == old(l.loops)
      ensures forall l <- lists :: l != varlist ==> l.parent == old(l.parent)
    {
      hide Linked;
      r := loop;
      if varlist == null || varlist.parent != null { return; }
      if r == null { r := NewLoop(); }
      var found, above := IsAroundLoop(r, varlist);
      if found { return; }
      Lift(above, rank[varlist] + 1);
      HangList(r, varlist);
    }

    // -------------------------------------------------------------- what walk() sees

    /** A list as a value: its variables, and its loop variables with their items. */
    ghost function ListValue(l: VarList): W.VarList
      requires Valid() && l in lists
      reads this, lists, loops
      decreases rank[l]
    {
      W.VarList(l.vars, LoopValues(l, l.loops))
    }

    ghost predicate RankedBelow(v: LoopVar, l: VarList)
      reads this
    {
      v in loops && v in rank && l in rank && rank[v] < rank[l]
    }

    lemma LoopsRankLower(l: VarList, k: nat)
      requires Valid() && l in lists && k <= |l.loops|
      ensures forall v <- l.loops[k..] :: RankedBelow(v, l)
    {
      forall v <- l.loops[k..] ensures RankedBelow(v, l) {
        assert v in l.loops;
      }
    }

    ghost function LoopValues(l: VarList, vs: seq<LoopVar>): (r: seq<W.LoopVar>)
      requires Valid() && l in lists && forall v <- vs :: RankedBelow(v, l)
      reads this, lists, loops
      decreases rank[l], 0, |vs|
    {
      if vs == [] then []
      else
        assert RankedBelow(vs[0], l);
        [LoopValue(vs[0])] + LoopValues(l, vs[1..])
    }

    ghost function LoopValue(v: LoopVar): W.LoopVar
      requires Valid() && v in loops
      reads this, lists, loops
      decreases rank[v]
    {
      W.LoopVar(v.name, ItemValues(v, v.items))
    }

    ghost function ItemValues(v: LoopVar, ls: seq<VarList>): (r: seq<W.VarList>)
      requires Valid() && v in loops && forall l <- ls :: l in lists && rank[l] < rank[v]
      reads this, lists, loops
      decreases rank[v], 0, |ls|
    {
      if ls == [] then [] else [ListValue(ls[0])] + ItemValues(v, ls[1..])
    }

    /** A bound on the number of lists around a list. */
    ghost function Below(l: VarList?): nat
      requires Ranked() && (l != null ==> l in lists)
      reads this, lists, loops
    {
      if l == null then 0
      else
        var m: VarList := l;
        top - rank[m] + 1
    }

    /** A list with the lists that enclose it, innermost first. */
    ghost function EnvOf(l: VarList?): W.Env
      requires Valid() && (l != null ==> l in lists)
      reads this, lists, loops
      decreases Below(l)
    {
      if l == null then []
      else if l.parent == null then [ListValue(l)]
      else [ListValue(l)] + EnvOf(l.parent.parent)
    }

    /** valueof() */
    method ValueOf(varname: string, varlist: VarList?) returns (value: Option<string>)
      requires Valid() && (varlist != null ==> varlist in lists)
      ensures value == W.ValueOf(varname, EnvOf(varlist))
    {
      var vl := varlist;
      while vl != null
        invariant vl != null ==> vl in lists
        invariant W.ValueOf(varname, EnvOf(vl)) == W.ValueOf(varname, EnvOf(varlist))
        decreases Below(vl)
      {
        var k := 0;
        assert vl.vars[0..] == vl.vars;
        while k < |vl.vars|
          invariant 0 <= k <= |vl.vars|
          invariant W.FirstValue(varname, vl.vars[k..]) == W.FirstValue(varname, vl.vars)
        {
          if vl.vars[k].0 == varname { return Some(vl.vars[k].1); }
          k := k + 1;
        }
        vl := if vl.parent == null then null else vl.parent.parent;
      }
      value := None;
    }

    /** The inner loop of findloop(): the loop variables of one list. */
    method SearchLoops(loopname: string, l: VarList) returns (loop: LoopVar?)
      requires Valid() && l in lists
      ensures loop != null ==> loop in loops && loop.parent == l
      ensures W.FirstLoop(loopname, ListValue(l).loops) == if loop == null then None else Some(LoopValue(loop))
    {
      var k := 0;
      LoopsRankLower(l, 0);
      assert l.loops[0..] == l.loops;
      while k < |l.loops|
        invariant 0 <= k <= |l.loops|
        invariant forall v <- l.loops[k..] :: RankedBelow(v, l)
        invariant W.FirstLoop(loopname, LoopValues(l, l.loops[k..])) == W.FirstLoop(loopname, ListValue(l).loops)
      {
        assert l.loops[k..][0] == l.loops[k] && l.loops[k..][1..] == l.loops[k + 1..];
        if l.loops[k].name == loopname { return l.loops[k]; }
        k := k + 1;
        LoopsRankLower(l, k);
      }
      loop := null;
    }

    /** findloop() */
    method FindLoop(loopname: string, varlist: VarList?) returns (loop: LoopVar?)
      requires Valid() && (varlist != null ==> varlist in lists)
      ensures loop != null ==> loop in loops && loop.parent != null && loop.parent in lists
      ensures W.FindLoop(loopname, EnvOf(varlist))
              == if loop == null then None else Some((LoopValue(loop), EnvOf(loop.parent)))
    {
      hide Linked, ListValue, LoopValue;
      var vl := varlist;
      while vl != null
        invariant vl != null ==> vl in lists
        invariant W.FindLoop(loopname, EnvOf(vl)) == W.FindLoop(loopname, EnvOf(varlist))
        decreases Below(vl)
      {
        loop := SearchLoops(loopname, vl);
        if loop != null { return; }
        vl := if vl.parent == null then null else vl.parent.parent;
      }
      loop := null;
    }
  }

  function Reversed<T>(s: seq<T>): seq<T> {
    if s == [] then [] else [s[|s| - 1]] + Reversed(s[..|s| - 1])
  }
}
