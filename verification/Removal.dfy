/** What removing a statement does. */
module Removals {
  // As functions of the state before: which statements, edges, break entries and blocks go, what
  // stays closed, how many statements are counted, and what is left when the rest of a block is
  // deleted.

  import opened Collections
  import opened ControlFlow

  function NotIn(d: set<Node>): Node -> bool { (x: Node) => x !in d }

  function NotInside(s: Node): Node -> bool { (x: Node) => !Inside(x, s) }

  function SourceNotIn(d: set<Node>): Edge -> bool { (e: Edge) => e.src !in d }

  /** Neither end is inside `s` or one of `d`. */
  function Apart(s: Node, d: set<Node>): Edge -> bool { (e: Edge) => !Dead(e.src, s, d) && !Dead(e.dest, s, d) }

  // ---------- what the removal of a statement takes with it ----------

  predicate Dead(x: Node, s: Node, d: set<Node>) { Inside(x, s) || x in d }

  /** `d` holds `s` and every goto outside `s` that jumps into `s` or to a member of `d`. */
  ghost predicate CutOff(edges: seq<Edge>, s: Node, d: set<Node>) {
    s in d && forall e :: e in edges && IsGoto(e.src) && !Inside(e.src, s) && Dead(e.dest, s, d) ==> e.src in d
  }

  /** The least such set. */
  ghost function Doomed(edges: seq<Edge>, s: Node): set<Node> {
    set x | x in {s} + (set e | e in edges :: e.src) && Inevitable(edges, s, x)
  }

  ghost predicate Inevitable(edges: seq<Edge>, s: Node, x: Node) {
    forall d :: CutOff(edges, s, d) ==> x in d
  }

  lemma DoomedIsCutOff(edges: seq<Edge>, s: Node)
    ensures CutOff(edges, s, Doomed(edges, s))
  {
    var d0 := Doomed(edges, s);
    forall e | e in edges && IsGoto(e.src) && !Inside(e.src, s) && Dead(e.dest, s, d0) ensures e.src in d0 {
      forall d | CutOff(edges, s, d) ensures e.src in d { assert Dead(e.dest, s, d); }
    }
  }

  lemma DoomedIsLeast(edges: seq<Edge>, s: Node, d: set<Node>)
    requires CutOff(edges, s, d)
    ensures Doomed(edges, s) <= d
  {}

  /** Whatever goes besides `s` is a goto outside `s` with an edge into something that goes. */
  lemma DoomedAreGotos(edges: seq<Edge>, s: Node)
    ensures forall x :: x in Doomed(edges, s) && x != s ==>
      IsGoto(x) && !Inside(x, s) && exists e :: e in edges && e.src == x && Dead(e.dest, s, Doomed(edges, s))
  {
    var d := Doomed(edges, s);
    var d' := set x | x in d &&
      (x == s || (IsGoto(x) && !Inside(x, s) && exists e :: e in edges && e.src == x && Dead(e.dest, s, d)));
    DoomedIsCutOff(edges, s);
    forall e | e in edges && IsGoto(e.src) && !Inside(e.src, s) && Dead(e.dest, s, d') ensures e.src in d' {
      assert Dead(e.dest, s, d);
    }
    DoomedIsLeast(edges, s, d');
  }

  // ---------- states ----------

  datatype State = State(stms: Lists, breaks: Lists, edges: seq<Edge>, blocks: seq<Node>)

  predicate SameGoto(e: Edge, e': Edge) { IsGoto(e.src) && e.src == e'.src }

  /** No goto has two targets. */
  ghost predicate OneTarget(edges: seq<Edge>) {
    forall e, e' {:trigger SameGoto(e, e')} :: SameGoto(e, e') && e in edges && e' in edges ==> e == e'
  }

  ghost predicate PendingOk(pending: set<Node>) {
    forall p :: p in pending ==> p.Stmt? && p.kind.Compound? && IsNode(p)
  }

  /** Everything the control-flow graph, the break lists and the block list mention is alive. */
  ghost predicate Closed(st: State, pending: set<Node>) {
    && ListsOk(st.stms) && PendingOk(pending)
    && EdgesClosed(st.edges, st.stms, pending) && OneTarget(st.edges)
    && BreaksClosed(st.breaks, st.stms, pending)
    && BlocksLive(st.blocks, st.stms, pending)
  }

  /** Every live goto has its edge. */
  ghost predicate GotosLinked(st: State, pending: set<Node>) {
    forall b, g :: b in st.stms && g in st.stms[b] && IsGoto(g) && Live(st.stms, pending, g) ==>
      exists e :: e in st.edges && e.src == g
  }

  function KeptStms(stms: Lists, d: set<Node>): Lists {
    map k | k in stms :: Filter(stms[k], NotIn(d))
  }

  function KeptBreaks(breaks: Lists, s: Node): Lists {
    map k | k in breaks :: if Inside(k, s) then breaks[k] else Filter(breaks[k], NotInside(s))
  }

  /** The state after the removal of `s`: `Doomed` is gone, an edge is kept exactly if neither end is
      inside something that is gone, and so is a break entry or a block; the order stays. */
  ghost function After(st: State, s: Node): State {
    var d := Doomed(st.edges, s);
    State(KeptStms(st.stms, d), KeptBreaks(st.breaks, s), Filter(st.edges, Apart(s, d)), Filter(st.blocks, NotInside(s)))
  }

  /** `s` is in its block and nothing inside it is still under construction. */
  ghost predicate CanRemove(stms: Lists, pending: set<Node>, s: Node) {
    && s.Stmt? && IsNode(s) && Listed(stms, s) && Live(stms, pending, s)
    && forall p :: p in pending ==> !Inside(p, s)
  }

  predicate Listed(stms: Lists, x: Node) { x.Stmt? && x.block in stms && x in stms[x.block] }

  /** Exactly what is inside something that is gone dies. */
  lemma {:induction false} LiveAfter(stms: Lists, pending: set<Node>, edges: seq<Edge>, s: Node, x: Node)
    requires ListsOk(stms) && PendingOk(pending) && CanRemove(stms, pending, s) && IsNode(x)
    ensures Live(KeptStms(stms, Doomed(edges, s)), pending, x) <==> Live(stms, pending, x) && !Dead(x, s, Doomed(edges, s))
    decreases x
  {
    var d := Doomed(edges, s);
    DoomedAreGotos(edges, s);
    DoomedIsCutOff(edges, s);
    match x
    case Root =>
    case Body(owner, _, _) => LiveAfter(stms, pending, edges, s, owner);
    case Stmt(block, _, _) =>
      LiveAfter(stms, pending, edges, s, block);
      if block in stms { FilterMembers(stms[block], NotIn(d)); }
      assert Inside(s, s);
  }

  lemma KeptStmsOk(stms: Lists, d: set<Node>)
    requires ListsOk(stms)
    ensures ListsOk(KeptStms(stms, d))
    ensures forall k, x :: k in stms ==> (x in KeptStms(stms, d)[k] <==> x in stms[k] && x !in d)
  {
    forall k | k in stms
      ensures NoDup(KeptStms(stms, d)[k]) && forall x :: x in KeptStms(stms, d)[k] <==> x in stms[k] && x !in d
    {
      FilterMembers(stms[k], NotIn(d));
      FilterNoDup(stms[k], NotIn(d));
    }
  }

  lemma EdgesStayClosed(stms: Lists, pending: set<Node>, edges: seq<Edge>, s: Node)
    requires ListsOk(stms) && PendingOk(pending) && CanRemove(stms, pending, s) && EdgesClosed(edges, stms, pending)
    ensures var d := Doomed(edges, s); EdgesClosed(Filter(edges, Apart(s, d)), KeptStms(stms, d), pending)
    ensures forall e :: e in Filter(edges, Apart(s, Doomed(edges, s))) ==> !Inside(e.src, s) && !Inside(e.dest, s)
  {
    var d := Doomed(edges, s);
    FilterMembers(edges, Apart(s, d));
    forall e | e in Filter(edges, Apart(s, d))
      ensures Live(KeptStms(stms, d), pending, e.src) && Live(KeptStms(stms, d), pending, e.dest)
    {
      LiveAfter(stms, pending, edges, s, e.src);
      LiveAfter(stms, pending, edges, s, e.dest);
    }
  }

  lemma BlocksStayLive(stms: Lists, pending: set<Node>, edges: seq<Edge>, blocks: seq<Node>, s: Node)
    requires ListsOk(stms) && PendingOk(pending) && CanRemove(stms, pending, s) && BlocksLive(blocks, stms, pending)
    ensures BlocksLive(Filter(blocks, NotInside(s)), KeptStms(stms, Doomed(edges, s)), pending)
  {
    FilterMembers(blocks, NotInside(s));
    DoomedAreGotos(edges, s);
    forall b | b in Filter(blocks, NotInside(s)) ensures Live(KeptStms(stms, Doomed(edges, s)), pending, b) {
      LiveAfter(stms, pending, edges, s, b);
    }
  }

  lemma BreaksStayClosed(stms: Lists, pending: set<Node>, edges: seq<Edge>, breaks: Lists, s: Node)
    requires ListsOk(stms) && PendingOk(pending) && CanRemove(stms, pending, s) && BreaksClosed(breaks, stms, pending)
    ensures BreaksClosed(KeptBreaks(breaks, s), KeptStms(stms, Doomed(edges, s)), pending)
  {
    forall b, x | b in breaks && x in KeptBreaks(breaks, s)[b]
      ensures BreakOk(KeptStms(stms, Doomed(edges, s)), pending, b, x)
    {
      FilterMembers(breaks[b], NotInside(s));
      assert BreakOk(stms, pending, b, x);
      BreakStaysOk(stms, pending, edges, s, b, x);
    }
  }

  lemma BreakStaysOk(stms: Lists, pending: set<Node>, edges: seq<Edge>, s: Node, b: Node, x: Node)
    requires ListsOk(stms) && PendingOk(pending) && CanRemove(stms, pending, s) && BreakOk(stms, pending, b, x)
    requires Inside(b, s) || !Inside(x, s)
    ensures BreakOk(KeptStms(stms, Doomed(edges, s)), pending, b, x)
  {
    LoopIsNode(x);
    LiveAfter(stms, pending, edges, s, b);
    LiveAfter(stms, pending, edges, s, x);
    DoomedAreGotos(edges, s);
    SelfInside(s);
  }

  /** After the removal nothing mentions what is gone. */
  lemma AfterIsClosed(st: State, pending: set<Node>, s: Node)
    requires Closed(st, pending) && CanRemove(st.stms, pending, s)
    ensures Closed(After(st, s), pending) && !Live(After(st, s).stms, pending, s)
    ensures forall e :: e in After(st, s).edges ==> !Inside(e.src, s) && !Inside(e.dest, s)
  {
    KeptStmsOk(st.stms, Doomed(st.edges, s));
    EdgesStayClosed(st.stms, pending, st.edges, s);
    FilterMembers(st.edges, Apart(s, Doomed(st.edges, s)));
    FewerTargets(st.edges, After(st, s).edges);
    BreaksStayClosed(st.stms, pending, st.edges, st.breaks, s);
    BlocksStayLive(st.stms, pending, st.edges, st.blocks, s);
    LiveAfter(st.stms, pending, st.edges, s, s);
    SelfInside(s);
  }

  // ---------- the same, entry by entry ----------

  /** A chain of gotos outside `s`, each with an edge to the next, leads from `x` into `s`. */
  ghost predicate JumpsInto(edges: seq<Edge>, s: Node, x: Node, n: nat)
    decreases n
  {
    n > 0 && exists e :: e in edges && e.src == x && IsGoto(x) && !Inside(x, s) && (Inside(e.dest, s) || JumpsInto(edges, s, e.dest, n - 1))
  }

  ghost predicate GoesWith(edges: seq<Edge>, s: Node, x: Node) { x == s || exists n: nat :: JumpsInto(edges, s, x, n) }

  lemma {:induction false} ChainIsDoomed(edges: seq<Edge>, s: Node, x: Node, n: nat)
    requires JumpsInto(edges, s, x, n)
    ensures x in Doomed(edges, s)
    decreases n
  {
    var e :| e in edges && e.src == x && IsGoto(x) && !Inside(x, s) && (Inside(e.dest, s) || JumpsInto(edges, s, e.dest, n - 1));
    DoomedIsCutOff(edges, s);
    if !Inside(e.dest, s) { ChainIsDoomed(edges, s, e.dest, n - 1); }
    assert Dead(e.dest, s, Doomed(edges, s));
  }

  /** What goes is `s` and every goto from which a chain of gotos leads into it. */
  lemma DoomedExactly(edges: seq<Edge>, s: Node, x: Node)
    ensures x in Doomed(edges, s) <==> GoesWith(edges, s, x)
  {
    if n: nat :| JumpsInto(edges, s, x, n) { ChainIsDoomed(edges, s, x, n); }
    DoomedIsCutOff(edges, s);
    var chain := set y | y in {s} + (set e | e in edges :: e.src) && GoesWith(edges, s, y);
    forall e | e in edges && IsGoto(e.src) && !Inside(e.src, s) && Dead(e.dest, s, chain) ensures e.src in chain {
      if !Inside(e.dest, s) {
        assert e.dest in chain && e.dest != s by { SelfInside(s); }
        var n: nat :| JumpsInto(edges, s, e.dest, n);
        assert JumpsInto(edges, s, e.src, n + 1);
      } else {
        assert JumpsInto(edges, s, e.src, 1);
      }
    }
    DoomedIsLeast(edges, s, chain);
  }

  /** In a list of statements exactly `s` and what goes with it is missing. */
  lemma StmsExactly(st: State, s: Node, b: Node, x: Node)
    requires b in st.stms
    ensures b in After(st, s).stms && Subsequence(After(st, s).stms[b], st.stms[b])
    ensures multiset(After(st, s).stms[b])[x] == if GoesWith(st.edges, s, x) then 0 else multiset(st.stms[b])[x]
  {
    DoomedExactly(st.edges, s, x);
    FilterKeeps(st.stms[b], NotIn(Doomed(st.edges, s)), x);
  }

  /** In a break list exactly what is inside `s` is missing, unless the list belongs to a part of `s`. */
  lemma BreaksExactly(st: State, s: Node, b: Node, x: Node)
    requires b in st.breaks
    ensures b in After(st, s).breaks && Subsequence(After(st, s).breaks[b], st.breaks[b])
    ensures multiset(After(st, s).breaks[b])[x] == if Inside(x, s) && !Inside(b, s) then 0 else multiset(st.breaks[b])[x]
  {
    FilterKeeps(st.breaks[b], NotInside(s), x);
    WholeSubsequence(st.breaks[b]);
  }

  /** In the list of blocks exactly what is inside `s` is missing. */
  lemma BlocksExactly(st: State, s: Node, x: Node)
    ensures Subsequence(After(st, s).blocks, st.blocks)
    ensures multiset(After(st, s).blocks)[x] == if Inside(x, s) then 0 else multiset(st.blocks)[x]
  {
    FilterKeeps(st.blocks, NotInside(s), x);
  }

  /** An edge stays, in its place, exactly if neither end is inside `s` or goes with it. */
  lemma EdgesExactly(st: State, s: Node, e: Edge)
    ensures Subsequence(After(st, s).edges, st.edges)
    ensures multiset(After(st, s).edges)[e] ==
      if Inside(e.src, s) || Inside(e.dest, s) || GoesWith(st.edges, s, e.src) || GoesWith(st.edges, s, e.dest) then 0 else multiset(st.edges)[e]
  {
    DoomedExactly(st.edges, s, e.src);
    DoomedExactly(st.edges, s, e.dest);
    FilterKeeps(st.edges, Apart(s, Doomed(st.edges, s)), e);
  }

  lemma FewerTargets(edges: seq<Edge>, edges': seq<Edge>)
    requires OneTarget(edges) && forall e :: e in edges' ==> e in edges
    ensures OneTarget(edges')
  {}

  /** The removal leaves no live goto without its edge. */
  lemma GotosStayLinked(st: State, pending: set<Node>, s: Node)
    requires Closed(st, pending) && CanRemove(st.stms, pending, s) && GotosLinked(st, pending)
    ensures GotosLinked(After(st, s), pending)
  {
    var st', d := After(st, s), Doomed(st.edges, s);
    KeptStmsOk(st.stms, d);
    FilterMembers(st.edges, Apart(s, d));
    DoomedIsCutOff(st.edges, s);
    forall b, g | b in st'.stms && g in st'.stms[b] && IsGoto(g) && Live(st'.stms, pending, g)
      ensures exists e :: e in st'.edges && e.src == g
    {
      LiveAfter(st.stms, pending, st.edges, s, g);
      var e :| e in st.edges && e.src == g;
      assert e in st'.edges;
    }
  }

  /** `remove_stmt` counts what it removes from the block of `s` without leaving that block. */
  function InBlock(b: Node): Edge -> bool { (e: Edge) => e.src.Stmt? && e.src.block == b }

  ghost function Counted(edges: seq<Edge>, s: Node): set<Node>
    requires s.Stmt?
  {
    Doomed(Filter(edges, InBlock(s.block)), s)
  }

  function Missing(stms: Lists, d: set<Node>): set<Node> { set x | x in d && !Listed(stms, x) }

  /** What goes is still there at the beginning. */
  lemma AllListed(st: State, pending: set<Node>, s: Node, edges: seq<Edge>)
    requires Closed(st, pending) && Listed(st.stms, s) && forall e :: e in edges ==> e in st.edges
    ensures Missing(st.stms, Doomed(edges, s)) == {}
  {
    DoomedAreGotos(edges, s);
    forall x | x in Doomed(edges, s) && x != s ensures Listed(st.stms, x) {
      var e :| e in edges && e.src == x;
      assert Live(st.stms, pending, e.src);
    }
  }

  lemma KeptStmsTwice(stms: Lists, d1: set<Node>, d: set<Node>)
    requires d1 <= d
    ensures KeptStms(KeptStms(stms, d1), d) == KeptStms(stms, d)
  {
    forall k | k in stms ensures Filter(Filter(stms[k], NotIn(d1)), NotIn(d)) == Filter(stms[k], NotIn(d)) {
      FilterTwice(stms[k], NotIn(d1), NotIn(d));
    }
  }

  lemma ListedAfter(stms: Lists, d: set<Node>, x: Node)
    ensures Listed(KeptStms(stms, d), x) <==> Listed(stms, x) && x !in d
  {
    if x.Stmt? && x.block in stms { FilterMembers(stms[x.block], NotIn(d)); }
  }

  // ---------- when the count is the number removed ----------

  function OfBlock(d: set<Node>, b: Node): set<Node> { set x | x in d && x.Stmt? && x.block == b }

  /** No goto of the block of `s` goes because of a goto in another block. */
  ghost predicate StaysInBlock(edges: seq<Edge>, s: Node)
    requires s.Stmt?
  {
    forall e :: e in edges && IsGoto(e.src) && e.src != s && e.src.block == s.block && e.src in Doomed(edges, s) ==>
      Inside(e.dest, s) || (e.dest.Stmt? && e.dest.block == s.block)
  }

  lemma CountedBelongs(edges: seq<Edge>, s: Node)
    requires s.Stmt?
    ensures Counted(edges, s) <= OfBlock(Doomed(edges, s), s.block)
  {
    var own := Filter(edges, InBlock(s.block));
    FilterMembers(edges, InBlock(s.block));
    DoomedIsCutOff(edges, s);
    DoomedIsLeast(own, s, Doomed(edges, s));
    DoomedAreGotos(own, s);
  }

  lemma AllOfBlockCounted(edges: seq<Edge>, s: Node)
    requires s.Stmt? && OneTarget(edges) && StaysInBlock(edges, s)
    ensures OfBlock(Doomed(edges, s), s.block) <= Counted(edges, s)
  {
    var d, c, own := Doomed(edges, s), Counted(edges, s), Filter(edges, InBlock(s.block));
    FilterMembers(edges, InBlock(s.block));
    DoomedIsCutOff(edges, s);
    DoomedIsCutOff(own, s);
    DoomedAreGotos(edges, s);
    CountedBelongs(edges, s);
    var k := c + (d - OfBlock(d, s.block));
    forall e | e in edges && IsGoto(e.src) && !Inside(e.src, s) && Dead(e.dest, s, k) ensures e.src in k {
      assert Dead(e.dest, s, d);
      if e.src.block == s.block { SelfInside(s); }
    }
    DoomedIsLeast(edges, s, k);
  }

  lemma CountedStays(edges: seq<Edge>, s: Node)
    requires s.Stmt? && OneTarget(edges) && OfBlock(Doomed(edges, s), s.block) <= Counted(edges, s)
    ensures StaysInBlock(edges, s)
  {
    var own := Filter(edges, InBlock(s.block));
    FilterMembers(edges, InBlock(s.block));
    DoomedAreGotos(own, s);
    CountedBelongs(edges, s);
    forall e | e in edges && IsGoto(e.src) && e.src != s && e.src.block == s.block && e.src in Doomed(edges, s)
      ensures Inside(e.dest, s) || (e.dest.Stmt? && e.dest.block == s.block)
    {
      assert e.src in Counted(edges, s);
      var e' :| e' in own && e'.src == e.src && Dead(e'.dest, s, Counted(edges, s));
      assert SameGoto(e, e');
    }
  }

  lemma FilterCount(xs: seq<Node>, d: set<Node>)
    requires NoDup(xs)
    ensures |xs| - |Filter(xs, NotIn(d))| == |ToSet(xs) * d|
  {
    var rest := Filter(xs, NotIn(d));
    FilterMembers(xs, NotIn(d));
    FilterNoDup(xs, NotIn(d));
    NoDupCard(xs);
    NoDupCard(rest);
    assert ToSet(xs) == ToSet(rest) + ToSet(xs) * d && ToSet(rest) !! ToSet(xs) * d;
  }

  /** The count is the number of statements the block of `s` loses if and only if every goto that
      goes from that block jumped into `s` or within the block. */
  lemma CountIsExact(st: State, pending: set<Node>, s: Node)
    requires Closed(st, pending) && CanRemove(st.stms, pending, s)
    ensures s.block in st.stms && s.block in After(st, s).stms
    ensures |Counted(st.edges, s)| == |st.stms[s.block]| - |After(st, s).stms[s.block]| <==> StaysInBlock(st.edges, s)
    ensures |Counted(st.edges, s)| <= |st.stms[s.block]| - |After(st, s).stms[s.block]|
  {
    var d, c := Doomed(st.edges, s), Counted(st.edges, s);
    var all := OfBlock(d, s.block);
    AllListed(st, pending, s, st.edges);
    forall x | x in d ensures Listed(st.stms, x) { assert x !in Missing(st.stms, d); }
    assert ToSet(st.stms[s.block]) * d == all;
    FilterCount(st.stms[s.block], d);
    CountedBelongs(st.edges, s);
    SubsetCard(c, all);
    if StaysInBlock(st.edges, s) { AllOfBlockCounted(st.edges, s); }
    if c == all { CountedStays(st.edges, s); }
  }

  /** A goto at the end of a block jumps to a goto in an inner block, which jumps to `s` in the outer
      one: two statements of the outer block go, and one is counted. */
  lemma CountCanBeTooSmall(c: Node, inner: Node, g1: Node, s: Node, g2: Node)
    requires c == Stmt(Root, 0, Compound([false])) && inner == Body(c, 0, false) && g1 == Stmt(inner, 0, Goto)
    requires s == Stmt(Root, 1, Simple) && g2 == Stmt(Root, 2, Goto)
    ensures var st := State(map[Root := [c, s, g2], inner := [g1]], map[], [Edge(g2, g1), Edge(g1, s)], [Root, inner]);
      && Closed(st, {}) && GotosLinked(st, {}) && CanRemove(st.stms, {}, s)
      && After(st, s).stms == map[Root := [c], inner := []] && Counted(st.edges, s) == {s}
  {
    var st, d := State(map[Root := [c, s, g2], inner := [g1]], map[], [Edge(g2, g1), Edge(g1, s)], [Root, inner]), {s, g1, g2};
    TwoJumps(c, inner, g1, s, g2);
    ChainGoes(st.edges, s, g1, g2);
    OuterLists(c, inner, g1, s, g2, d);
    OnlyItCounted(g1, s, g2);
  }

  lemma OuterLists(c: Node, inner: Node, g1: Node, s: Node, g2: Node, d: set<Node>)
    requires g1 in d && g2 in d && s in d && c !in d && inner != Root
    ensures KeptStms(map[Root := [c, s, g2], inner := [g1]], d) == map[Root := [c], inner := []]
  {
    FilterOuter(c, s, g2, d);
    assert [g1][1..] == [];
    assert Filter([g1], NotIn(d)) == [];
  }

  lemma FilterOuter(c: Node, s: Node, g: Node, d: set<Node>)
    requires g in d && s in d && c !in d
    ensures Filter([c, s, g], NotIn(d)) == [c]
  {
    assert [c, s, g][1..] == [s, g] && [s, g][1..] == [g] && [g][1..] == [];
    assert Filter([g], NotIn(d)) == [] && Filter([s, g], NotIn(d)) == [];
  }

  /** `g1` jumps to `s`, and `g2` is the same or jumps to `g1`. */
  lemma ChainGoes(edges: seq<Edge>, s: Node, g1: Node, g2: Node)
    requires edges == if g1 == g2 then [Edge(g1, s)] else [Edge(g2, g1), Edge(g1, s)]
    requires IsGoto(g1) && IsGoto(g2) && !Inside(g1, s) && !Inside(g2, s)
    ensures Doomed(edges, s) == {s, g1, g2}
  {
    assert Edge(g1, s) in edges && (g1 != g2 ==> Edge(g2, g1) in edges);
    SelfInside(s);
    DoomedIsCutOff(edges, s);
    assert CutOff(edges, s, {s, g1, g2});
    DoomedIsLeast(edges, s, {s, g1, g2});
  }

  lemma TwoJumps(c: Node, inner: Node, g1: Node, s: Node, g2: Node)
    requires c == Stmt(Root, 0, Compound([false])) && inner == Body(c, 0, false) && g1 == Stmt(inner, 0, Goto)
    requires s == Stmt(Root, 1, Simple) && g2 == Stmt(Root, 2, Goto)
    ensures var st := State(map[Root := [c, s, g2], inner := [g1]], map[], [Edge(g2, g1), Edge(g1, s)], [Root, inner]);
      Closed(st, {}) && GotosLinked(st, {}) && CanRemove(st.stms, {}, s)
  {
    var stms := map[Root := [c, s, g2], inner := [g1]];
    var edges := [Edge(g2, g1), Edge(g1, s)];
    AllLive(c, inner, g1, s, g2);
    assert edges[0].src == g2 && edges[1].src == g1 && edges[0] in edges && edges[1] in edges;
  }

  lemma AllLive(c: Node, inner: Node, g1: Node, s: Node, g2: Node)
    requires c == Stmt(Root, 0, Compound([false])) && inner == Body(c, 0, false) && g1 == Stmt(inner, 0, Goto)
    requires s == Stmt(Root, 1, Simple) && g2 == Stmt(Root, 2, Goto)
    ensures var stms := map[Root := [c, s, g2], inner := [g1]];
      && Live(stms, {}, inner) && Live(stms, {}, g1) && Live(stms, {}, s) && Live(stms, {}, g2)
      && IsNode(inner) && IsNode(g1) && IsNode(s) && IsNode(g2) && Listed(stms, s)
  {
    var stms := map[Root := [c, s, g2], inner := [g1]];
    assert c in stms[Root] && s in stms[Root] && g2 in stms[Root] && g1 in stms[inner];
    assert Live(stms, {}, c) && Live(stms, {}, inner);
    assert IsNode(c);
  }

  lemma OnlyItCounted(g1: Node, s: Node, g2: Node)
    requires g1.Stmt? && s.Stmt? && g2.Stmt? && g1.block != s.block && !Inside(g1, s)
    ensures Counted([Edge(g2, g1), Edge(g1, s)], s) == {s}
  {
    var own := Filter([Edge(g2, g1), Edge(g1, s)], InBlock(s.block));
    FilterMembers([Edge(g2, g1), Edge(g1, s)], InBlock(s.block));
    DoomedIsCutOff(own, s);
    forall e | e in own ensures e == Edge(g2, g1) {}
    DoomedIsLeast(own, s, {s});
  }

  // ---------- deleting the rest of a block ----------

  lemma RemovalShrinks(st: State, b: Node, index: nat)
    requires b in st.stms && index < |st.stms[b]|
    ensures |After(st, st.stms[b][index]).stms[b]| < |st.stms[b]|
  {
    var s := st.stms[b][index];
    DoomedIsCutOff(st.edges, s);
    FilterMembers(st.stms[b], NotIn(Doomed(st.edges, s)));
    FilterLength(st.stms[b], NotIn(Doomed(st.edges, s)));
    assert s in st.stms[b] && s !in After(st, s).stms[b];
  }

  /** The statement at `index` is deleted until the list is short enough. */
  ghost function DeletedFrom(st: State, b: Node, index: nat): State
    decreases if b in st.stms then |st.stms[b]| else 0
  {
    if b in st.stms && index < |st.stms[b]| then
      RemovalShrinks(st, b, index);
      DeletedFrom(After(st, st.stms[b][index]), b, index)
    else
      st
  }

  predicate InOneOf(x: Node, t: set<Node>, k: set<Node>) { x in k || exists y :: y in t && Inside(x, y) }

  /** `k` holds `t` and every goto that jumps into a member. */
  ghost predicate SweepClosed(edges: seq<Edge>, t: set<Node>, k: set<Node>) {
    t <= k && forall e :: e in edges && IsGoto(e.src) && InOneOf(e.dest, t, k) ==> e.src in k
  }

  /** The least such set. */
  ghost function Swept(edges: seq<Edge>, t: set<Node>): set<Node> {
    set x | x in t + (set e | e in edges :: e.src) && SweptAlways(edges, t, x)
  }

  ghost predicate SweptAlways(edges: seq<Edge>, t: set<Node>, x: Node) {
    forall k :: SweepClosed(edges, t, k) ==> x in k
  }

  lemma SweptIsClosed(edges: seq<Edge>, t: set<Node>)
    ensures SweepClosed(edges, t, Swept(edges, t))
  {
    var k0 := Swept(edges, t);
    forall e | e in edges && IsGoto(e.src) && InOneOf(e.dest, t, k0) ensures e.src in k0 {
      forall k | SweepClosed(edges, t, k) ensures e.src in k { assert InOneOf(e.dest, t, k); }
    }
  }

  /** Besides `t`, only gotos that are the source of an edge are swept away. */
  lemma SweptAreGotos(edges: seq<Edge>, t: set<Node>)
    ensures forall x :: x in Swept(edges, t) && x !in t ==> IsGoto(x) && exists e :: e in edges && e.src == x
  {
    var k := t + set e | e in edges && IsGoto(e.src) :: e.src;
    assert SweepClosed(edges, t, k);
    forall x | x in Swept(edges, t) ensures x in k { assert SweptAlways(edges, t, x); }
  }

  /** `b` is a live block whose statements are all finished. */
  ghost predicate Deletable(st: State, pending: set<Node>, b: Node) {
    && Closed(st, pending) && b in st.stms && Live(st.stms, pending, b)
    && forall p :: p in pending ==> p.Stmt? && !Inside(p.block, b)
  }

  lemma ListedCanGo(stms: Lists, pending: set<Node>, s: Node, b: Node)
    requires ListsOk(stms) && b in stms && s in stms[b] && Live(stms, pending, b)
    requires forall p :: p in pending ==> p.Stmt? && !Inside(p.block, b)
    ensures CanRemove(stms, pending, s)
  {
    assert Inside(b, b) && Inside(s, b);
    forall p | p in pending ensures !Inside(p, s) { if Inside(p, s) { InsideTransitive(p, s, b); } }
  }

  lemma BlockStays(st: State, pending: set<Node>, b: Node, s: Node)
    requires Deletable(st, pending, b) && s in st.stms[b]
    ensures CanRemove(st.stms, pending, s) && Deletable(After(st, s), pending, b)
    ensures !Inside(b, s) && b !in Doomed(st.edges, s)
  {
    ListedCanGo(st.stms, pending, s, b);
    AfterIsClosed(st, pending, s);
    DoomedAreGotos(st.edges, s);
    if Inside(b, s) { InsideDepth(b, s); }
    LiveAfter(st.stms, pending, st.edges, s, b);
  }

  lemma {:induction false} DeletedStays(st: State, pending: set<Node>, b: Node, index: nat)
    requires Deletable(st, pending, b)
    ensures Deletable(DeletedFrom(st, b, index), pending, b) && |DeletedFrom(st, b, index).stms[b]| <= index
    decreases |st.stms[b]|
  {
    if index < |st.stms[b]| {
      RemovalShrinks(st, b, index);
      BlockStays(st, pending, b, st.stms[b][index]);
      DeletedStays(After(st, st.stms[b][index]), pending, b, index);
    }
  }

  lemma SweepTakesAll(edges: seq<Edge>, t: set<Node>, k: set<Node>, s: Node)
    requires SweepClosed(edges, t, k) && s in t
    ensures Doomed(edges, s) <= k
  {
    forall e | e in edges && IsGoto(e.src) && !Inside(e.src, s) && Dead(e.dest, s, k) ensures e.src in k {
      assert InOneOf(e.dest, t, k);
    }
    DoomedIsLeast(edges, s, k);
  }

  /** Nothing outside the swept set goes, and the order stays. */
  lemma {:induction false} DeletedAgrees(st: State, pending: set<Node>, b: Node, index: nat, t: set<Node>, k: set<Node>)
    requires Deletable(st, pending, b) && SweepClosed(st.edges, t, k)
    requires index < |st.stms[b]| ==> forall x :: x in st.stms[b][index..] ==> x in t
    ensures KeptStms(DeletedFrom(st, b, index).stms, k) == KeptStms(st.stms, k)
    decreases |st.stms[b]|
  {
    if index < |st.stms[b]| {
      var s := st.stms[b][index];
      var st1, d := After(st, s), Doomed(st.edges, s);
      RemovalShrinks(st, b, index);
      BlockStays(st, pending, b, s);
      assert s in st.stms[b][index..];
      SweepTakesAll(st.edges, t, k, s);
      if index < |st1.stms[b]| { FilterTail(st.stms[b], NotIn(d), index); }
      FilterMembers(st.edges, Apart(s, d));
      DeletedAgrees(st1, pending, b, index, t, k);
      KeptStmsTwice(st.stms, d, k);
    }
  }

  /** Whatever is alive at the end was so before, and an edge is lost only with its goto. */
  lemma {:induction false} DeletedLoses(st: State, pending: set<Node>, b: Node, index: nat, e: Edge)
    requires Deletable(st, pending, b) && e in st.edges && IsGoto(e.src) && e !in DeletedFrom(st, b, index).edges
    ensures !Live(DeletedFrom(st, b, index).stms, pending, e.src)
    decreases |st.stms[b]|
  {
    assert index < |st.stms[b]|;
    var s := st.stms[b][index];
    var st1, d := After(st, s), Doomed(st.edges, s);
    RemovalShrinks(st, b, index);
    BlockStays(st, pending, b, s);
    if e in st1.edges {
      DeletedLoses(st1, pending, b, index, e);
    } else {
      FilterMembers(st.edges, Apart(s, d));
      DoomedIsCutOff(st.edges, s);
      LiveAfter(st.stms, pending, st.edges, s, e.src);
      DeletedIsOlder(st1, pending, b, index, e.src);
    }
  }

  lemma {:induction false} DeletedIsOlder(st: State, pending: set<Node>, b: Node, index: nat, x: Node)
    requires Deletable(st, pending, b) && IsNode(x) && !Live(st.stms, pending, x)
    ensures !Live(DeletedFrom(st, b, index).stms, pending, x)
    decreases |st.stms[b]|
  {
    if index < |st.stms[b]| {
      var s := st.stms[b][index];
      RemovalShrinks(st, b, index);
      BlockStays(st, pending, b, s);
      LiveAfter(st.stms, pending, st.edges, s, x);
      DeletedIsOlder(After(st, s), pending, b, index, x);
    }
  }

  /** The statements from `index` on. */
  function Later(st: State, b: Node, index: nat): set<Node>
    requires b in st.stms && index <= |st.stms[b]|
  {
    ToSet(st.stms[b][index..])
  }

  /** Exactly the later statements are deleted from the block if and only if no earlier one is swept
      away with them. */
  lemma DeletesTheRest(st: State, pending: set<Node>, b: Node, index: nat)
    requires Deletable(st, pending, b) && index <= |st.stms[b]|
    ensures b in DeletedFrom(st, b, index).stms
    ensures DeletedFrom(st, b, index).stms[b] == st.stms[b][..index] <==>
      forall x :: x in st.stms[b][..index] ==> x !in Swept(st.edges, Later(st, b, index))
  {
    DeletedStays(st, pending, b, index);
    if forall x :: x in st.stms[b][..index] ==> x !in Swept(st.edges, Later(st, b, index)) {
      OnlyTheRest(st, pending, b, index);
    }
    if DeletedFrom(st, b, index).stms[b] == st.stms[b][..index] {
      forall x | x in st.stms[b][..index] ensures x !in Swept(st.edges, Later(st, b, index)) {
        NotSwept(st, pending, b, index, x);
      }
    }
  }

  lemma OnlyTheRest(st: State, pending: set<Node>, b: Node, index: nat)
    requires Deletable(st, pending, b) && index <= |st.stms[b]|
    requires forall x :: x in st.stms[b][..index] ==> x !in Swept(st.edges, Later(st, b, index))
    ensures b in DeletedFrom(st, b, index).stms && DeletedFrom(st, b, index).stms[b] == st.stms[b][..index]
  {
    var t := Later(st, b, index);
    var k, st', xs := Swept(st.edges, t), DeletedFrom(st, b, index), st.stms[b];
    SweptIsClosed(st.edges, t);
    DeletedAgrees(st, pending, b, index, t, k);
    DeletedStays(st, pending, b, index);
    assert KeptStms(st'.stms, k)[b] == KeptStms(st.stms, k)[b];
    FilterPrefix(xs, NotIn(k), index);
    FilterLength(st'.stms[b], NotIn(k));
  }

  lemma NotSwept(st: State, pending: set<Node>, b: Node, index: nat, x: Node)
    requires Deletable(st, pending, b) && index <= |st.stms[b]|
    requires b in DeletedFrom(st, b, index).stms && DeletedFrom(st, b, index).stms[b] == st.stms[b][..index]
    requires x in st.stms[b][..index]
    ensures x !in Swept(st.edges, Later(st, b, index))
  {
    var t, st' := Later(st, b, index), DeletedFrom(st, b, index);
    var k := SweptAndDead(st, st', pending, t);
    DeadIsClosed(st, pending, b, index);
    assert x in Swept(st.edges, t) ==> SweptAlways(st.edges, t, x) && x in k;
    assert x in k ==> !Live(st'.stms, pending, x);
    DeletedStays(st, pending, b, index);
    assert Live(st'.stms, pending, x);
  }

  ghost function SweptAndDead(st: State, st': State, pending: set<Node>, t: set<Node>): set<Node> {
    set y | y in Swept(st.edges, t) && !Live(st'.stms, pending, y)
  }

  lemma DeadIsClosed(st: State, pending: set<Node>, b: Node, index: nat)
    requires Deletable(st, pending, b) && index <= |st.stms[b]|
    requires b in DeletedFrom(st, b, index).stms && DeletedFrom(st, b, index).stms[b] == st.stms[b][..index]
    ensures var t := Later(st, b, index); SweepClosed(st.edges, t, SweptAndDead(st, DeletedFrom(st, b, index), pending, t))
  {
    var t, st' := Later(st, b, index), DeletedFrom(st, b, index);
    var k := SweptAndDead(st, st', pending, t);
    DeletedStays(st, pending, b, index);
    SweptIsClosed(st.edges, t);
    forall y | y in t ensures y in k { LaterIsDead(st, st', pending, b, index, y); }
    forall e | e in st.edges && IsGoto(e.src) && InOneOf(e.dest, t, k) ensures e.src in k {
      assert InOneOf(e.dest, t, Swept(st.edges, t));
      if e in st'.edges {
        NotIntoDead(st', pending, e, t, k);
      } else {
        DeletedLoses(st, pending, b, index, e);
      }
    }
  }

  lemma LaterIsDead(st: State, st': State, pending: set<Node>, b: Node, index: nat, y: Node)
    requires Deletable(st, pending, b) && index <= |st.stms[b]| && y in Later(st, b, index)
    requires b in st'.stms && st'.stms[b] == st.stms[b][..index]
    ensures !Live(st'.stms, pending, y)
  {
    var i :| index <= i < |st.stms[b]| && st.stms[b][i] == y;
    assert y !in st'.stms[b];
    assert y in st.stms[b] && y.block == b;
    SelfInside(b);
  }

  /** An edge that is left leads into nothing dead. */
  lemma NotIntoDead(st': State, pending: set<Node>, e: Edge, t: set<Node>, k: set<Node>)
    requires Closed(st', pending) && e in st'.edges && t <= k
    requires forall y :: y in k ==> !Live(st'.stms, pending, y)
    ensures !InOneOf(e.dest, t, k)
  {
    assert Live(st'.stms, pending, e.dest);
    forall y | y in k ensures !Inside(e.dest, y) {
      if Inside(e.dest, y) { LiveAbove(st'.stms, pending, e.dest, y); }
    }
  }

  /** In particular if no earlier statement of the block is a goto with an edge. */
  lemma DeletesTheRestWithoutGotos(st: State, pending: set<Node>, b: Node, index: nat)
    requires Deletable(st, pending, b) && index <= |st.stms[b]|
    requires forall e :: e in st.edges && IsGoto(e.src) ==> e.src !in st.stms[b][..index]
    ensures b in DeletedFrom(st, b, index).stms && DeletedFrom(st, b, index).stms[b] == st.stms[b][..index]
  {
    var t := Later(st, b, index);
    SweptAreGotos(st.edges, t);
    forall x | x in st.stms[b][..index] ensures x !in Swept(st.edges, t) {
      NotLater(st.stms[b], index, x);
    }
    OnlyTheRest(st, pending, b, index);
  }

  /** In the block `[w, goto x, x, y]` the analysis fails at `x`: `goto x`, which was inserted behind
      `w`, goes with it, and `y` stays. */
  lemma LaterStatementStays(w: Node, g: Node, x: Node, y: Node)
    requires w == Stmt(Root, 0, Simple) && g == Stmt(Root, 1, Goto) && x == Stmt(Root, 2, Simple) && y == Stmt(Root, 3, Simple)
    ensures var st := State(map[Root := [w, g, x, y]], map[], [Edge(g, x)], [Root]);
      Deletable(st, {}, Root) && GotosLinked(st, {}) && DeletedFrom(st, Root, 2).stms == map[Root := [w, y]]
  {
    var st, d := State(map[Root := [w, g, x, y]], map[], [Edge(g, x)], [Root]), {x, g};
    OneJump(w, g, x, y);
    ChainGoes(st.edges, x, g, g);
    assert Doomed(st.edges, x) == d;
    FilterPair(w, g, x, y, d);
    assert After(st, x).stms == map[Root := [w, y]];
    assert DeletedFrom(st, Root, 2) == DeletedFrom(After(st, x), Root, 2) == After(st, x);
  }

  lemma OneJump(w: Node, g: Node, x: Node, y: Node)
    requires w == Stmt(Root, 0, Simple) && g == Stmt(Root, 1, Goto) && x == Stmt(Root, 2, Simple) && y == Stmt(Root, 3, Simple)
    ensures var st := State(map[Root := [w, g, x, y]], map[], [Edge(g, x)], [Root]); Deletable(st, {}, Root) && GotosLinked(st, {})
  {
    var st := State(map[Root := [w, g, x, y]], map[], [Edge(g, x)], [Root]);
    assert g in st.stms[Root] && x in st.stms[Root];
    assert Live(st.stms, {}, g) && Live(st.stms, {}, x);
    assert Edge(g, x) in st.edges;
  }

  lemma FilterPair(w: Node, g: Node, x: Node, y: Node, d: set<Node>)
    requires w !in d && g in d && x in d && y !in d
    ensures Filter([w, g, x, y], NotIn(d)) == [w, y]
  {
    assert [w, g, x, y][1..] == [g, x, y] && [g, x, y][1..] == [x, y] && [x, y][1..] == [y] && [y][1..] == [];
    assert Filter([y], NotIn(d)) == [y] && Filter([x, y], NotIn(d)) == [y] && Filter([g, x, y], NotIn(d)) == [y];
  }

  /** What repairing block `b` keeps: nothing mentions what is gone, every live goto has its edge, no
      statement is new, and a back edge stays. */
  ghost predicate Repaired(st: State, st': State, pending: set<Node>, b: Node) {
    && Deletable(st', pending, b) && b in st.stms
    && (GotosLinked(st, pending) ==> GotosLinked(st', pending))
    && (forall x :: x in st'.stms[b] ==> x in st.stms[b])
    && (Edge(b, b) in st.edges ==> Edge(b, b) in st'.edges)
  }

  lemma RepairedTwice(st: State, st1: State, st2: State, pending: set<Node>, b: Node)
    requires Repaired(st, st1, pending, b) && Repaired(st1, st2, pending, b)
    ensures Repaired(st, st2, pending, b)
  {}

  lemma {:induction false} DeletionRepairs(st: State, pending: set<Node>, b: Node, index: nat)
    requires Deletable(st, pending, b)
    ensures Repaired(st, DeletedFrom(st, b, index), pending, b) && |DeletedFrom(st, b, index).stms[b]| <= index
    decreases |st.stms[b]|
  {
    if index < |st.stms[b]| {
      var s := st.stms[b][index];
      var st1, d := After(st, s), Doomed(st.edges, s);
      RemovalShrinks(st, b, index);
      BlockStays(st, pending, b, s);
      RemovalRepairs(st, pending, b, s);
      DeletionRepairs(st1, pending, b, index);
      RepairedTwice(st, st1, DeletedFrom(st, b, index), pending, b);
    }
  }

  lemma RemovalRepairs(st: State, pending: set<Node>, b: Node, s: Node)
    requires Deletable(st, pending, b) && s in st.stms[b]
    ensures Repaired(st, After(st, s), pending, b)
  {
    BlockStays(st, pending, b, s);
    FilterMembers(st.stms[b], NotIn(Doomed(st.edges, s)));
    FilterMembers(st.edges, Apart(s, Doomed(st.edges, s)));
    if GotosLinked(st, pending) { GotosStayLinked(st, pending, s); }
  }

}
