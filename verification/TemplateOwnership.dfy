/** Which tag nodes the parser allocates, links and frees, with their addresses. */
module TemplateOwnership {
  import opened Prelude
  import opened TemplateScanner
  import opened TemplateParser
  import opened TemplateTrees

  /** Address 0 is the node that all TMPL_ELSE, /TMPL_IF and /TMPL_LOOP tags share; the n-th tag that
      scan() returns lies at n otherwise. A loop's body is its tbranch. */
  datatype Tree = Tree(address: nat, tag: Tag, tbranch: seq<Tree>, fbranch: seq<Tree>)

  function Address(st: St): nat {
    if st.cur.Some? && Allocated(st.cur.value) then |st.log| else 0
  }

  /** What the shared node holds: the last tag that was stored in it. */
  function LastShared(tags: seq<Tag>): Option<Tag> {
    if tags == [] then None
    else if !Allocated(tags[|tags| - 1]) then Some(tags[|tags| - 1])
    else LastShared(tags[..|tags| - 1])
  }

  function SharedNow(st: St): Option<Tag> {
    LastShared(st.log + if st.next.Some? then [st.next.value] else [])
  }

  /** What the node that was current in st holds after scanning on to st1. */
  function HeldNow(st: St, st1: St): Option<Tag>
    requires st.cur.Some?
  {
    if Allocated(st.cur.value) then st.cur else SharedNow(st1)
  }

  // ---------------------------------------------------------------- linking

  function LinkList(src: Source, st: St, stop: Stops): seq<Tree>
    requires Within(src, st)
    decreases Weight(src, Scan(src, st)), 3
  {
    LinkItems(src, Scan(src, st), stop)
  }

  /** The loop of parselist(). Whether an unexpected terminator is linked is decided by its kind as
      it stands after the next scan. */
  function LinkItems(src: Source, st: St, stop: Stops): seq<Tree>
    requires Within(src, st)
    decreases Weight(src, st), 2
  {
    if st.cur.None? || Stopping(stop, st.cur.value) then []
    else if Terminator(st.cur.value) then
      var st1 := Scan(src, st.(error := true));
      var held := HeldNow(st, st1);
      (if held.Some? && held.value.Elsif? then [Tree(Address(st), held.value, [], [])] else [])
      + LinkItems(src, st1, stop)
    else
      [LinkNode(src, st, stop)] + LinkItems(src, ParseNode(src, st, stop).1, stop)
  }

  function LinkNode(src: Source, st: St, stop: Stops): Tree
    requires Within(src, st) && st.cur.Some?
    decreases Weight(src, st), 1
  {
    match st.cur.value
    case If(_, _) => LinkIf(src, st, stop)
    case Loop(_) =>
      Tree(Address(st), st.cur.value, LinkList(src, st.(depth := st.depth + 1), LoopStops(stop)), [])
    case tag => Tree(Address(st), tag, [], [])
  }

  function LinkIf(src: Source, st: St, stop: Stops): Tree
    requires Within(src, st) && st.cur.Some?
    decreases Weight(src, st), 0
  {
    var tbranch := LinkList(src, st, IfStops(stop));
    var st1 := ParseList(src, st, IfStops(stop)).1;
    var fbranch := if st1.cur.Some? && st1.cur.value.Elsif? then [LinkIf(src, st1, stop)]
                   else if st1.cur == Some(Else) then LinkList(src, st1, ElseStops(stop)) else [];
    Tree(Address(st), st.cur.value, tbranch, fbranch)
  }

  // ---------------------------------------------------------------- addresses and trees

  /** The addresses in the order of the tags. */
  function Addresses(trees: seq<Tree>): seq<nat> {
    if trees == [] then []
    else [trees[0].address] + Addresses(trees[0].tbranch) + Addresses(trees[0].fbranch) + Addresses(trees[1..])
  }

  /** The same trees without addresses. */
  function Erased(trees: seq<Tree>): seq<Node> {
    if trees == [] then [] else [ErasedOne(trees[0])] + Erased(trees[1..])
  }

  function ErasedOne(tree: Tree): Node {
    if tree.tag.If? || tree.tag.Elsif? then Cond(tree.tag, Erased(tree.tbranch), Erased(tree.fbranch))
    else if tree.tag.Loop? then Block(tree.tag, Erased(tree.tbranch))
    else Leaf(tree.tag)
  }

  /** Addresses of the tags that were allocated. */
  function Allocations(tags: seq<Tag>): seq<nat> {
    if tags == [] then []
    else Allocations(tags[..|tags| - 1]) + (if Allocated(tags[|tags| - 1]) then [|tags|] else [])
  }

  /** freetag(): the branches, what follows, and then the node itself. */
  function Freed(trees: seq<Tree>): seq<nat> {
    if trees == [] then []
    else Freed(trees[0].tbranch) + Freed(trees[0].fbranch) + Freed(trees[1..]) + [trees[0].address]
  }

  lemma {:induction false} FreedAreLinked(trees: seq<Tree>)
    ensures multiset(Freed(trees)) == multiset(Addresses(trees))
  {
    if trees != [] {
      FreedAreLinked(trees[0].tbranch);
      FreedAreLinked(trees[0].fbranch);
      FreedAreLinked(trees[1..]);
    }
  }

  lemma {:induction false} SharedIsNoElsif(tags: seq<Tag>, k: nat)
    requires k < |tags| && !Allocated(tags[k])
    ensures LastShared(tags).Some? && !LastShared(tags).value.Elsif?
  {
    if k < |tags| - 1 { SharedIsNoElsif(tags[..|tags| - 1], k); }
  }

  /** Although the shared node may have been overwritten, its kind decides as the scanned tag would. */
  lemma LateReadIsHarmless(src: Source, st: St)
    requires Within(src, st) && Logged(st) && st.cur.Some?
    ensures var held := HeldNow(st, Scan(src, st)); held.Some? && (held.value.Elsif? <==> st.cur.value.Elsif?)
    ensures var held := HeldNow(st, Scan(src, st)); st.cur.value.Elsif? ==> held == st.cur
  {
    var st1 := Scan(src, st);
    var tags := st1.log + if st1.next.Some? then [st1.next.value] else [];
    if !Allocated(st.cur.value) {
      assert tags[|st.log| - 1] == st.cur.value;
      SharedIsNoElsif(tags, |st.log| - 1);
    }
  }

  /** After scanning on, the allocations are known up to the tag that was current. */
  lemma ScanAllocates(src: Source, st: St)
    requires Within(src, st) && Logged(st)
    ensures Logged(Scan(src, st)) && Consumed(Scan(src, st)) == st.log
    ensures st.cur.Some? ==> Allocations(st.log)
                             == Allocations(Consumed(st)) + (if Allocated(st.cur.value) then [Address(st)] else [])
    ensures st.cur.None? ==> st.log == Consumed(st)
  {
    hide Scan;
    ScanConsumes(src, st);
  }

  lemma LinkedFirst(tree: Tree, rest: seq<Tree>)
    ensures Addresses([tree] + rest)
         == [tree.address] + Addresses(tree.tbranch) + Addresses(tree.fbranch) + Addresses(rest)
    ensures Erased([tree] + rest) == [ErasedOne(tree)] + Erased(rest)
  {
    assert ([tree] + rest)[1..] == rest;
  }

  lemma NothingLinked()
    ensures Addresses([]) == [] && Erased([]) == []
  {
  }

  // ---------------------------------------------------------------- the parser links what it allocates

  lemma {:induction false} ItemsOwned(src: Source, st: St, stop: Stops)
    requires Within(src, st) && Logged(st)
    ensures var (nodes, st') := ParseItems(src, st, stop);
            var trees := LinkItems(src, st, stop);
            && Logged(st') && Erased(trees) == nodes
            && Allocations(Consumed(st')) == Allocations(Consumed(st)) + Addresses(trees)
    decreases Weight(src, st), 2
  {
    hide Scan, Addresses, Erased, Allocations, Consumed, HeldNow, LinkNode, ParseNode;
    NothingLinked();
    if st.cur.Some? && !Stopping(stop, st.cur.value) {
      if Terminator(st.cur.value) {
        StrayOwned(src, st, stop);
      } else {
        NodeOwned(src, st, stop);
        var (node, st1) := ParseNode(src, st, stop);
        ItemsOwned(src, st1, stop);
        LinkedFirst(LinkNode(src, st, stop), LinkItems(src, st1, stop));
        Joins(Allocations(Consumed(st)), OneAddresses(LinkNode(src, st, stop)), Addresses(LinkItems(src, st1, stop)));
      }
    }
  }

  function OneAddresses(tree: Tree): seq<nat> { [tree.address] + Addresses(tree.tbranch) + Addresses(tree.fbranch) }

  lemma Joins(a: seq<nat>, b: seq<nat>, c: seq<nat>)
    ensures (a + b) + c == a + (b + c)
  {
  }

  lemma {:induction false} StrayOwned(src: Source, st: St, stop: Stops)
    requires Within(src, st) && Logged(st) && st.cur.Some?
    requires Terminator(st.cur.value) && !Stopping(stop, st.cur.value)
    ensures var (nodes, st') := ParseItems(src, st, stop);
            var trees := LinkItems(src, st, stop);
            && Logged(st') && Erased(trees) == nodes
            && Allocations(Consumed(st')) == Allocations(Consumed(st)) + Addresses(trees)
    decreases Weight(src, st), 1
  {
    hide Scan, Addresses, Erased, Allocations, Consumed, HeldNow;
    var bad := st.(error := true);
    var st1 := Scan(src, bad);
    SameConsumed(st, bad);
    ScanAllocates(src, bad);
    SameHeld(st, bad, st1);
    LateReadIsHarmless(src, bad);
    ItemsOwned(src, st1, stop);
    var rest := LinkItems(src, st1, stop);
    NothingLinked();
    if st.cur.value.Elsif? {
      LinkedFirst(Tree(Address(st), st.cur.value, [], []), rest);
      Joins(Allocations(Consumed(st)), [Address(st)], Addresses(rest));
      OneAddress(Tree(Address(st), st.cur.value, [], []));
    } else {
      assert LinkItems(src, st, stop) == rest;
    }
  }

  lemma OneAddress(tree: Tree)
    requires tree.tbranch == [] && tree.fbranch == []
    ensures [tree.address] + Addresses(tree.tbranch) + Addresses(tree.fbranch) == [tree.address]
  {
  }

  lemma SameHeld(st: St, bad: St, st1: St)
    requires bad == st.(error := true) && st.cur.Some?
    ensures HeldNow(bad, st1) == HeldNow(st, st1) && Address(bad) == Address(st)
  {
  }

  lemma {:induction false} NodeOwned(src: Source, st: St, stop: Stops)
    requires Within(src, st) && Logged(st) && st.cur.Some? && !Terminator(st.cur.value)
    ensures var (node, st') := ParseNode(src, st, stop);
            var tree := LinkNode(src, st, stop);
            && Logged(st') && ErasedOne(tree) == node
            && Allocations(Consumed(st')) == Allocations(Consumed(st)) + OneAddresses(tree)
    decreases Weight(src, st), 1
  {
    hide Scan, Addresses, Erased, Allocations, Consumed;
    NothingLinked();
    if st.cur.value.If? {
      IfOwned(src, st, stop);
    } else if st.cur.value.Loop? {
      LoopOwned(src, st, stop);
    } else {
      ScanAllocates(src, st);
    }
  }

  lemma {:induction false} ListOwned(src: Source, st: St, stop: Stops)
    requires Within(src, st) && Logged(st)
    ensures var (nodes, st') := ParseList(src, st, stop);
            var trees := LinkList(src, st, stop);
            && Logged(st') && Erased(trees) == nodes
            && Allocations(Consumed(st')) == Allocations(st.log) + Addresses(trees)
    decreases Weight(src, Scan(src, st)), 3
  {
    hide Scan, Addresses, Erased, Allocations, Consumed;
    ScanAllocates(src, st);
    ItemsOwned(src, Scan(src, st), stop);
  }

  lemma ClosingAllocates(src: Source, st: St, tag: Tag)
    requires Within(src, st) && Logged(st) && !Allocated(tag)
    ensures var st' := Closing(src, st, tag); Logged(st') && Allocations(Consumed(st')) == Allocations(Consumed(st))
  {
    hide Scan, Allocations;
    ScanAllocates(src, st);
  }

  lemma {:induction false} LoopOwned(src: Source, st: St, stop: Stops)
    requires Within(src, st) && Logged(st) && st.cur.Some? && st.cur.value.Loop?
    ensures var (node, st') := ParseLoop(src, st, stop);
            var tree := LinkNode(src, st, stop);
            && Logged(st') && ErasedOne(tree) == node
            && Allocations(Consumed(st')) == Allocations(Consumed(st)) + OneAddresses(tree)
    decreases Weight(src, st), 0
  {
    hide Scan, Addresses, Erased, Allocations, Consumed, Closing, LinkList, ParseList;
    NothingLinked();
    ScanAllocates(src, st);
    var inner := st.(depth := st.depth + 1);
    ListOwned(src, inner, LoopStops(stop));
    var st1 := ParseList(src, inner, LoopStops(stop)).1;
    var st2 := st1.(depth := st1.depth - 1);
    SameConsumed(st1, st2);
    ClosingAllocates(src, st2, EndLoop);
    Joins(Allocations(Consumed(st)), [Address(st)], Addresses(LinkList(src, inner, LoopStops(stop))));
  }

  lemma {:induction false} IfOwned(src: Source, st: St, stop: Stops)
    requires Within(src, st) && Logged(st) && st.cur.Some? && (st.cur.value.If? || st.cur.value.Elsif?)
    ensures var (node, st') := ParseIf(src, st, stop);
            var tree := LinkIf(src, st, stop);
            && Logged(st') && ErasedOne(tree) == node
            && Allocations(Consumed(st')) == Allocations(Consumed(st)) + OneAddresses(tree)
    decreases Weight(src, st), 0
  {
    hide Scan, Addresses, Erased, Allocations, Consumed, Closing, LinkList, ParseList;
    NothingLinked();
    ScanAllocates(src, st);
    ListOwned(src, st, IfStops(stop));
    var st1 := ParseList(src, st, IfStops(stop)).1;
    var tbranch := LinkList(src, st, IfStops(stop));
    Joins(Allocations(Consumed(st)), [Address(st)], Addresses(tbranch));
    if st1.cur.Some? && st1.cur.value.Elsif? {
      IfOwned(src, st1, stop);
      var elsif := LinkIf(src, st1, stop);
      LinkedOnly(elsif);
      Joins(Allocations(Consumed(st)), [Address(st)] + Addresses(tbranch), OneAddresses(elsif));
    } else if st1.cur == Some(Else) {
      ScanAllocates(src, st1);
      ListOwned(src, st1, ElseStops(stop));
      ClosingAllocates(src, ParseList(src, st1, ElseStops(stop)).1, EndIf);
      var others := LinkList(src, st1, ElseStops(stop));
      Joins(Allocations(Consumed(st)), [Address(st)] + Addresses(tbranch), Addresses(others));
    } else {
      ClosingAllocates(src, st1, EndIf);
    }
  }

  lemma LinkedOnly(tree: Tree)
    ensures Addresses([tree]) == OneAddresses(tree) && Erased([tree]) == [ErasedOne(tree)]
  {
    LinkedFirst(tree, []);
    assert [tree] + [] == [tree];
    NothingLinked();
  }

  // ---------------------------------------------------------------- each node is freed once

  lemma {:induction false} AllocatedOnce(tags: seq<Tag>, address: nat)
    ensures multiset(Allocations(tags))[address]
         == if 1 <= address <= |tags| && Allocated(tags[address - 1]) then 1 else 0
  {
    if tags != [] {
      var init := tags[..|tags| - 1];
      AllocatedOnce(init, address);
      var more := if Allocated(tags[|tags| - 1]) then [|tags|] else [];
      assert multiset(Allocations(init) + more) == multiset(Allocations(init)) + multiset(more);
    }
  }

  /** Whatever the template: the tree is made of the allocated nodes, and freetag() on it frees each
      of them exactly once, and never the shared node. */
  lemma EachNodeIsFreedOnce(src: Source, address: nat)
    ensures var (nodes, st) := ParseTemplate(src);
            var trees := LinkList(src, Start(), NO_STOPS);
            && Erased(trees) == nodes
            && multiset(Freed(trees))[address]
               == if 1 <= address <= |st.log| && Allocated(st.log[address - 1]) then 1 else 0
  {
    hide Scan, Erased, Addresses, Freed, Allocations, LinkList, ParseList;
    var trees := LinkList(src, Start(), NO_STOPS);
    var st := ParseTemplate(src).1;
    ListOwned(src, Start(), NO_STOPS);
    EveryTagLinkedOnce(src);
    AllocatedOnce(st.log, address);
    FreedAreLinked(trees);
    assert Allocations([]) == [] by { NoAllocations(); }
    assert [] + Addresses(trees) == Addresses(trees);
    assert Consumed(st) == st.log;
  }

  lemma NoAllocations()
    ensures Allocations([]) == []
  {
  }
}
