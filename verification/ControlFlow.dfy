/** The statements, blocks, jumps and control-flow edges of a function under construction, which of
    them are still alive, and how the jumps inside a statement are found. */
module ControlFlow {
  import opened Collections

  datatype Kind = Simple | Goto | Break | Continue | Compound(loops: seq<bool>)

  /** The statements and blocks of one function. A compound statement has one block for each element
      of `loops`, which says whether it is a loop body. */
  datatype Node =
    | Root
    | Body(owner: Node, k: nat, looping: bool)
    | Stmt(block: Node, n: nat, kind: Kind)
  {
    predicate IsBlock() { Root? || Body? }
  }

  datatype Edge = Edge(src: Node, dest: Node)

  /** The statements currently in each block, in order. */
  type Lists = map<Node, seq<Node>>

  predicate IsJump(x: Node) { x.Stmt? && (x.kind.Goto? || x.kind.Break? || x.kind.Continue?) }

  predicate IsGoto(x: Node) { x.Stmt? && x.kind.Goto? }

  /** `contains_stmt`: `x` is `s` or part of it. */
  predicate Inside(x: Node, s: Node)
    decreases x
  {
    x == s || match x
      case Root => false
      case Body(owner, _, _) => Inside(owner, s)
      case Stmt(block, _, _) => Inside(block, s)
  }

  function Depth(x: Node): nat {
    match x
    case Root => 0
    case Body(owner, _, _) => 1 + Depth(owner)
    case Stmt(block, _, _) => 1 + Depth(block)
  }

  lemma {:induction false} InsideTransitive(x: Node, y: Node, z: Node)
    requires Inside(x, y) && Inside(y, z)
    ensures Inside(x, z)
    decreases x
  {
    if x != y {
      match x
      case Body(owner, _, _) => InsideTransitive(owner, y, z);
      case Stmt(block, _, _) => InsideTransitive(block, y, z);
    }
  }

  lemma {:induction false} InsideDepth(x: Node, s: Node)
    requires Inside(x, s)
    ensures Depth(x) >= Depth(s) && (Depth(x) == Depth(s) ==> x == s)
    decreases x
  {
    if x != s {
      match x
      case Body(owner, _, _) => InsideDepth(owner, s);
      case Stmt(block, _, _) => InsideDepth(block, s);
    }
  }

  // ---------- shape ----------

  /** Blocks belong to compound statements, statements to blocks. */
  predicate IsNode(x: Node)
    decreases x
  {
    match x
    case Root => true
    case Body(owner, k, looping) =>
      owner.Stmt? && owner.kind.Compound? && k < |owner.kind.loops| && owner.kind.loops[k] == looping && IsNode(owner)
    case Stmt(block, _, _) => block.IsBlock() && IsNode(block)
  }

  ghost predicate ListsOk(stms: Lists) {
    forall b :: b in stms ==>
      && b.IsBlock() && IsNode(b) && NoDup(stms[b])
      && forall x :: x in stms[b] ==> x.Stmt? && x.block == b
  }

  /** A node is alive if it and everything around it is in the list of its block, or is a compound
      statement that is still under construction. */
  predicate Live(stms: Lists, pending: set<Node>, x: Node)
    decreases x
  {
    match x
    case Root => true
    case Body(owner, _, _) => Live(stms, pending, owner)
    case Stmt(block, _, _) =>
      && (x in pending || (block in stms && x in stms[block]))
      && Live(stms, pending, block)
  }

  /** Edges lead between live nodes, and only jumps and loop bodies have outgoing edges, the latter
      to themselves. */
  ghost predicate EdgesClosed(edges: seq<Edge>, stms: Lists, pending: set<Node>) {
    forall e :: e in edges ==>
      && IsNode(e.src) && IsNode(e.dest) && Live(stms, pending, e.src) && Live(stms, pending, e.dest)
      && (IsJump(e.src) || (e.src.IsBlock() && e.dest == e.src))
  }

  function NearestLoop(b: Node): Node
    decreases b
  {
    match b
    case Root => Root
    case Body(owner, _, looping) => if looping then b else NearestLoop(owner)
    case Stmt(block, _, _) => NearestLoop(block)
  }

  /** `x` is a `break` out of `b`, alive if `b` is. */
  ghost predicate BreakOk(stms: Lists, pending: set<Node>, b: Node, x: Node) {
    x.Stmt? && x.kind.Break? && IsNode(x) && NearestLoop(x) == b && (Live(stms, pending, b) ==> Live(stms, pending, x))
  }

  /** A live loop body lists only live `break` statements whose innermost loop it is. */
  ghost predicate BreaksClosed(breaks: Lists, stms: Lists, pending: set<Node>) {
    forall b, x :: b in breaks && x in breaks[b] ==> BreakOk(stms, pending, b, x)
  }

  ghost predicate BlocksLive(blocks: seq<Node>, stms: Lists, pending: set<Node>) {
    forall b :: b in blocks ==> b.IsBlock() && IsNode(b) && Live(stms, pending, b)
  }

  // ---------- finding the jumps inside a statement ----------

  function Around(stms: Lists, s: Node): set<Node> {
    set b | b in stms && Inside(b, s)
  }

  lemma SmallerInside(stms: Lists, s: Node, b: Node, y: Node)
    requires ListsOk(stms) && b in stms && b.Body? && b.owner == s && y in stms[b]
    ensures Around(stms, y) < Around(stms, s)
  {
    assert Inside(b, b) && Inside(y, b) && Inside(s, s) && Inside(b, s) && Inside(y, s) by {
      assert y.block == b;
      InsideTransitive(y, b, s);
    }
    forall x | x in Around(stms, y) ensures x in Around(stms, s) { InsideTransitive(x, y, s); }
    if Inside(b, y) { InsideDepth(b, y); }
    assert b in Around(stms, s) && b !in Around(stms, y);
  }

  /** The statements directly in the blocks of `s`. */
  function Kids(stms: Lists, s: Node): set<Node> {
    set b, y | b in stms && b.Body? && b.owner == s && y in stms[b] :: y
  }

  lemma KidsSmaller(stms: Lists, s: Node)
    requires ListsOk(stms)
    ensures forall y :: y in Kids(stms, s) ==> |Around(stms, y)| < |Around(stms, s)|
  {
    forall y | y in Kids(stms, s) ensures |Around(stms, y)| < |Around(stms, s)| {
      SmallerInside(stms, s, y.block, y);
      SubsetCard(Around(stms, y), Around(stms, s));
    }
  }

  /** `find_typed_stmts`: the jumps that are still in the lists inside `s`. */
  function Jumps(stms: Lists, s: Node): set<Node>
    requires ListsOk(stms)
    decreases |Around(stms, s)|
  {
    KidsSmaller(stms, s);
    (if IsJump(s) then {s} else {}) + set y, x | y in Kids(stms, s) && x in Jumps(stms, y) :: x
  }

  /** A live jump inside `s` is found. */
  lemma {:induction false} JumpFound(stms: Lists, pending: set<Node>, x: Node, s: Node)
    requires ListsOk(stms) && IsJump(x) && Live(stms, pending, x) && Inside(x, s) && s.Stmt?
    requires forall p :: p in pending ==> p.Stmt? && p.kind.Compound? && !Inside(p, s)
    ensures x in Jumps(stms, s)
    decreases Depth(x) - Depth(s)
  {
    InsideDepth(x, s);
    if x != s {
      assert x !in pending && IsNode(x.block);
      var y := ChildToward(x, s);
      LiveAbove(stms, pending, x, y);
      assert Inside(y, s);
      InsideDepth(x, y);
      assert y in stms[y.block];
      forall p | p in pending ensures !Inside(p, y) { if Inside(p, y) { InsideTransitive(p, y, s); } }
      JumpFound(stms, pending, x, y);
      assert y in Kids(stms, s) && x in Jumps(stms, y);
    }
  }

  /** The statement directly in a block of `s` that leads to `x`. */
  lemma {:induction false} ChildToward(x: Node, s: Node) returns (y: Node)
    requires Inside(x, s) && x != s && x.Stmt? && s.Stmt? && IsNode(x)
    ensures y.Stmt? && y.block.Body? && y.block.owner == s && Inside(x, y) && Inside(y, s) && Depth(y) > Depth(s)
    decreases x
  {
    var o := x.block.owner;
    if o == s {
      y := x;
    } else {
      y := ChildToward(o, s);
      assert Inside(o, o) && Inside(x.block, o) && Inside(x, o);
      InsideTransitive(x, o, y);
    }
  }

  lemma {:induction false} LiveAbove(stms: Lists, pending: set<Node>, x: Node, y: Node)
    requires Live(stms, pending, x) && Inside(x, y)
    ensures Live(stms, pending, y)
    decreases x
  {
    if x != y {
      match x
      case Body(owner, _, _) => LiveAbove(stms, pending, owner, y);
      case Stmt(block, _, _) => LiveAbove(stms, pending, block, y);
    }
  }

  lemma {:induction false} LoopInside(x: Node, s: Node)
    requires Inside(x, s) && s.Stmt?
    ensures NearestLoop(x) == NearestLoop(s) || Inside(NearestLoop(x), s)
    decreases x
  {
    if x != s {
      match x
      case Body(owner, _, _) => LoopInside(owner, s);
      case Stmt(block, _, _) => LoopInside(block, s);
    }
  }

  lemma {:induction false} JumpsInside(stms: Lists, s: Node, x: Node)
    requires ListsOk(stms) && x in Jumps(stms, s)
    ensures IsJump(x) && Inside(x, s)
    decreases |Around(stms, s)|
  {
    KidsSmaller(stms, s);
    if !(x == s && IsJump(s)) {
      var y :| y in Kids(stms, s) && x in Jumps(stms, y);
      JumpsInside(stms, y, x);
      assert Inside(s, s) && Inside(y, s);
      InsideTransitive(x, y, s);
    }
  }

  lemma SelfInside(s: Node)
    ensures Inside(s, s)
  {}

  lemma {:induction false} LoopIsNode(x: Node)
    requires IsNode(x)
    ensures IsNode(NearestLoop(x))
    decreases x
  {
    match x
    case Root =>
    case Body(owner, _, looping) => if !looping { LoopIsNode(owner); }
    case Stmt(block, _, _) => LoopIsNode(block);
  }

  /** The innermost loop around a block encloses it. */
  lemma {:induction false} LoopOutside(x: Node, s: Node)
    requires s.Stmt? && Depth(x) < Depth(s)
    ensures !Inside(NearestLoop(x), s)
    decreases x
  {
    match x
    case Root =>
    case Body(owner, _, looping) =>
      if !looping { LoopOutside(owner, s); } else if Inside(x, s) { InsideDepth(x, s); }
    case Stmt(block, _, _) => LoopOutside(block, s);
  }

  lemma {:induction false} LiveLoop(stms: Lists, pending: set<Node>, x: Node)
    requires Live(stms, pending, x)
    ensures Live(stms, pending, NearestLoop(x))
    decreases x
  {
    match x
    case Root =>
    case Body(owner, _, looping) => if !looping { LiveLoop(stms, pending, owner); }
    case Stmt(block, _, _) => LiveLoop(stms, pending, block);
  }

  lemma {:induction false} GotoHoldsNothing(x: Node, g: Node)
    requires IsNode(x) && Inside(x, g) && IsGoto(g)
    ensures x == g
    decreases x
  {
    if x != g {
      match x
      case Body(owner, _, _) => GotoHoldsNothing(owner, g);
      case Stmt(block, _, _) => GotoHoldsNothing(block, g);
    }
  }
}
