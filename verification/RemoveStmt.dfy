/** Deleting statements from a function under construction, in place and with the cascade over jumps.
    The methods leave exactly the state that `Removals` describes. */
module RemoveStmts {
  import opened Collections
  import opened ControlFlow
  import opened Removals

  // ---------- a removal under way ----------

  /** Every goto whose edge is gone is gone itself, unless it is inside `s`. */
  ghost predicate LostWithSource(edges: seq<Edge>, st: State, s: Node) {
    forall e :: e in edges && e !in st.edges && IsGoto(e.src) && !Inside(e.src, s) ==> !Listed(st.stms, e.src)
  }

  /** The states agree on everything that stays when `s` and `d` go. */
  ghost predicate Agree(st0: State, st: State, s: Node, d: set<Node>) {
    && KeptStms(st.stms, d) == KeptStms(st0.stms, d)
    && Filter(st.edges, Apart(s, d)) == Filter(st0.edges, Apart(s, d))
    && Filter(st.blocks, NotInside(s)) == Filter(st0.blocks, NotInside(s))
    && st.breaks == KeptBreaks(st0.breaks, s)
  }

  /** No edge starts from a jump inside `s`. */
  ghost predicate Clean(edges: seq<Edge>, s: Node) {
    forall e :: e in edges && IsJump(e.src) ==> !Inside(e.src, s)
  }

  /** The removal of `s` began in `st0` and got to `st`, with `cnt` statements counted. */
  ghost predicate InProgress(st0: State, st: State, pending: set<Node>, s: Node, cnt: nat) {
    && Closed(st0, pending) && CanRemove(st0.stms, pending, s)
    && Closed(st, pending) && CanRemove(st.stms, pending, s) && Clean(st.edges, s)
    && (forall e :: e in st.edges ==> e in st0.edges)
    && Agree(st0, st, s, Doomed(st0.edges, s))
    && LostWithSource(st0.edges, st, s)
    && cnt == |Missing(st.stms, Counted(st0.edges, s))|
  }

  /** No edge leads into `s`. */
  ghost predicate LeadElsewhere(edges: seq<Edge>, s: Node) {
    forall e :: e in edges ==> !Inside(e.dest, s)
  }

  // ---------- the first step: the jumps inside the statement ----------

  ghost predicate FindsJumps(jumps: set<Node>, st: State, s: Node)
    requires s.Stmt?
  {
    && (forall x :: x in jumps ==> Inside(x, s))
    && (forall e :: e in st.edges && IsJump(e.src) && Inside(e.src, s) ==> e.src in jumps)
    && var b := NearestLoop(s.block); b in st.breaks ==> forall x :: x in st.breaks[b] && Inside(x, s) ==> x in jumps
  }

  lemma AllJumpsFound(st: State, pending: set<Node>, s: Node)
    requires Closed(st, pending) && CanRemove(st.stms, pending, s)
    ensures FindsJumps(Jumps(st.stms, s), st, s)
  {
    forall x | x in Jumps(st.stms, s) ensures Inside(x, s) { JumpsInside(st.stms, s, x); }
    forall e | e in st.edges && IsJump(e.src) && Inside(e.src, s) ensures e.src in Jumps(st.stms, s) {
      JumpFound(st.stms, pending, e.src, s);
    }
    var b := NearestLoop(s.block);
    if b in st.breaks {
      LiveLoop(st.stms, pending, s);
      forall x | x in st.breaks[b] && Inside(x, s) ensures x in Jumps(st.stms, s) { JumpFound(st.stms, pending, x, s); }
    }
  }

  lemma BreaksErased(st: State, pending: set<Node>, s: Node, jumps: set<Node>, b: Node)
    requires Closed(st, pending) && CanRemove(st.stms, pending, s) && FindsJumps(jumps, st, s) && b == NearestLoop(s.block)
    ensures KeptBreaks(st.breaks, s) == if b in st.breaks then st.breaks[b := Filter(st.breaks[b], NotIn(jumps))] else st.breaks
  {
    var r := KeptBreaks(st.breaks, s);
    forall k | k in st.breaks
      ensures r[k] == if k == b then Filter(st.breaks[k], NotIn(jumps)) else st.breaks[k]
    {
      LoopOutside(s.block, s);
      if k == b {
        FilterAgrees(st.breaks[k], NotInside(s), NotIn(jumps));
      } else if !Inside(k, s) {
        forall x | x in st.breaks[k] ensures !Inside(x, s) { if Inside(x, s) { LoopInside(x, s); } }
        FilterAll(st.breaks[k], NotInside(s));
      }
    }
  }

  lemma JumpsErased(st0: State, st: State, pending: set<Node>, s: Node, jumps: set<Node>)
    requires Closed(st0, pending) && CanRemove(st0.stms, pending, s) && FindsJumps(jumps, st0, s)
    requires st == st0.(breaks := KeptBreaks(st0.breaks, s), edges := Filter(st0.edges, SourceNotIn(jumps)))
    ensures InProgress(st0, st, pending, s, 0)
  {
    var d := Doomed(st0.edges, s);
    FilterMembers(st0.edges, SourceNotIn(jumps));
    FilterTwice(st0.edges, SourceNotIn(jumps), Apart(s, d));
    KeptBreaksClosed(st0, pending, s);
    FilterMembers(st0.edges, InBlock(s.block));
    AllListed(st0, pending, s, Filter(st0.edges, InBlock(s.block)));
    FewerEdgesClosed(st0, pending, st.edges);
  }

  lemma KeptBreaksClosed(st: State, pending: set<Node>, s: Node)
    requires Closed(st, pending)
    ensures BreaksClosed(KeptBreaks(st.breaks, s), st.stms, pending)
  {
    forall k | k in st.breaks ensures forall x :: x in KeptBreaks(st.breaks, s)[k] ==> x in st.breaks[k] {
      FilterMembers(st.breaks[k], NotInside(s));
    }
  }

  // ---------- the second step: the edges that lead into the statement ----------

  lemma FewerEdgesClosed(st: State, pending: set<Node>, edges: seq<Edge>)
    requires Closed(st, pending) && forall e :: e in edges ==> e in st.edges
    ensures Closed(st.(edges := edges), pending)
  {
    FewerTargets(st.edges, edges);
  }

  /** An edge that comes from no goto only goes itself. */
  lemma EdgeErased(st0: State, st: State, pending: set<Node>, s: Node, cnt: nat, i: nat)
    requires InProgress(st0, st, pending, s, cnt) && i < |st.edges| && Inside(st.edges[i].dest, s)
    ensures Closed(st.(edges := Without(st.edges, i)), pending)
    ensures Agree(st0, st.(edges := Without(st.edges, i)), s, Doomed(st0.edges, s))
    ensures !IsGoto(st.edges[i].src) ==> InProgress(st0, st.(edges := Without(st.edges, i)), pending, s, cnt)
  {
    var st1 := st.(edges := Without(st.edges, i));
    FilterErase(st.edges, Apart(s, Doomed(st0.edges, s)), i);
    WithoutMembers(st.edges, i);
    FewerEdgesClosed(st, pending, st1.edges);
  }

  /** What the deletion of a goto that jumps into `s` takes with it also goes with `s`. */
  lemma CascadeGoes(edges: seq<Edge>, edges1: seq<Edge>, s: Node, g: Node)
    requires (forall e :: e in edges1 ==> e in edges && IsNode(e.dest)) && Clean(edges1, s)
    requires IsGoto(g) && g in Doomed(edges, s)
    ensures Doomed(edges1, g) <= Doomed(edges, s)
  {
    DoomedIsCutOff(edges, s);
    var d := Doomed(edges, s);
    forall e | e in edges1 && IsGoto(e.src) && !Inside(e.src, g) && Dead(e.dest, g, d) ensures e.src in d {
      if Inside(e.dest, g) { GotoHoldsNothing(e.dest, g); }
    }
    DoomedIsLeast(edges1, g, d);
  }

  /** The state after the deletion of `g` keeps what stays when `s` goes. */
  lemma CascadeAgrees(st0: State, st1: State, pending: set<Node>, s: Node, g: Node)
    requires Closed(st1, pending) && IsGoto(g) && Agree(st0, st1, s, Doomed(st0.edges, s))
    requires Doomed(st1.edges, g) <= Doomed(st0.edges, s)
    ensures Agree(st0, After(st1, g), s, Doomed(st0.edges, s))
  {
    var d, d1 := Doomed(st0.edges, s), Doomed(st1.edges, g);
    DoomedIsCutOff(st1.edges, g);
    KeptStmsTwice(st1.stms, d1, d);
    KeptEdgesTwice(st1.edges, s, d, g, d1);
    GotoTakesNoBreaks(st1, pending, g);
  }

  lemma KeptEdgesTwice(edges: seq<Edge>, s: Node, d: set<Node>, g: Node, d1: set<Node>)
    requires IsGoto(g) && g in d && d1 <= d && forall e :: e in edges ==> IsNode(e.src) && IsNode(e.dest)
    ensures Filter(Filter(edges, Apart(g, d1)), Apart(s, d)) == Filter(edges, Apart(s, d))
  {
    forall e | e in edges && Apart(s, d)(e) ensures Apart(g, d1)(e) {
      if Inside(e.src, g) { GotoHoldsNothing(e.src, g); }
      if Inside(e.dest, g) { GotoHoldsNothing(e.dest, g); }
    }
    FilterTwice(edges, Apart(g, d1), Apart(s, d));
  }

  lemma GotoTakesNoBreaks(st: State, pending: set<Node>, g: Node)
    requires Closed(st, pending) && IsGoto(g)
    ensures KeptBreaks(st.breaks, g) == st.breaks && Filter(st.blocks, NotInside(g)) == st.blocks
  {
    forall k | k in st.breaks ensures KeptBreaks(st.breaks, g)[k] == st.breaks[k] {
      forall x | x in st.breaks[k] ensures !Inside(x, g) { if Inside(x, g) { GotoHoldsNothing(x, g); } }
      FilterAll(st.breaks[k], NotInside(g));
    }
    forall b | b in st.blocks ensures !Inside(b, g) { if Inside(b, g) { GotoHoldsNothing(b, g); } }
    FilterAll(st.blocks, NotInside(g));
  }

  /** An edge that goes with `g` goes with its source. */
  lemma CascadeLosesSources(st1: State, pending: set<Node>, g: Node, e: Edge)
    requires Closed(st1, pending) && IsGoto(g) && e in st1.edges && IsGoto(e.src) && e !in After(st1, g).edges
    ensures !Listed(After(st1, g).stms, e.src)
  {
    var d1 := Doomed(st1.edges, g);
    FilterMembers(st1.edges, Apart(g, d1));
    DoomedIsCutOff(st1.edges, g);
    KeptStmsOk(st1.stms, d1);
    if Inside(e.src, g) { GotoHoldsNothing(e.src, g); }
    assert e.src in d1;
  }

  /** Of what `s` counts, the deletion of `g` takes what `g` counts if it is in the same block, and
      nothing otherwise. */
  lemma CascadeCounts(edges: seq<Edge>, edges1: seq<Edge>, s: Node, g: Node, edge: Edge)
    requires OneTarget(edges) && (forall e :: e in edges1 ==> e in edges && IsNode(e.dest)) && Clean(edges1, s)
    requires s.Stmt? && IsGoto(g) && !Inside(g, s) && edge in edges && edge.src == g && Inside(edge.dest, s)
    ensures Doomed(edges1, g) * Counted(edges, s) == if g.block == s.block then Counted(edges1, g) else {}
  {
    var all, c, r := Doomed(edges1, g), Counted(edges, s), if g.block == s.block then Counted(edges1, g) else {};
    if g.block == s.block {
      CountedWithin(edges, edges1, s, g, edge);
    }
    CountedApart(edges, edges1, s, g, r);
  }

  lemma CountedWithin(edges: seq<Edge>, edges1: seq<Edge>, s: Node, g: Node, edge: Edge)
    requires (forall e :: e in edges1 ==> e in edges && IsNode(e.dest)) && Clean(edges1, s)
    requires s.Stmt? && IsGoto(g) && !Inside(g, s) && edge in edges && edge.src == g && Inside(edge.dest, s) && g.block == s.block
    ensures Counted(edges1, g) <= Counted(edges, s) && Counted(edges1, g) <= Doomed(edges1, g)
  {
    var own, own1 := Filter(edges, InBlock(s.block)), Filter(edges1, InBlock(s.block));
    FilterMembers(edges, InBlock(s.block));
    FilterMembers(edges1, InBlock(s.block));
    DoomedIsCutOff(own, s);
    assert edge in own && g in Counted(edges, s);
    CascadeGoes(own, own1, s, g);
    DoomedIsCutOff(edges1, g);
    DoomedIsLeast(own1, g, Doomed(edges1, g));
  }

  /** What `s` counts, without what `g` takes but does not count, still holds all that `s` counts. */
  lemma CountedApart(edges: seq<Edge>, edges1: seq<Edge>, s: Node, g: Node, r: set<Node>)
    requires OneTarget(edges) && (forall e :: e in edges1 ==> e in edges && IsNode(e.dest)) && Clean(edges1, s)
    requires s.Stmt? && IsGoto(g) && !Inside(g, s) && r == if g.block == s.block then Counted(edges1, g) else {}
    ensures Doomed(edges1, g) * Counted(edges, s) <= r
  {
    var all, c, own := Doomed(edges1, g), Counted(edges, s), Filter(edges, InBlock(s.block));
    var k := c - (all - r);
    DoomedIsCutOff(own, s);
    DoomedAreGotos(edges1, g);
    FilterMembers(edges, InBlock(s.block));
    assert Inside(s, s) && s in k;
    forall e | e in own && IsGoto(e.src) && !Inside(e.src, s) && Dead(e.dest, s, k) ensures e.src in k {
      assert Dead(e.dest, s, c);
      if e.src in all { CountedStep(edges, edges1, s, g, r, e); }
    }
    DoomedIsLeast(own, s, k);
  }

  lemma CountedStep(edges: seq<Edge>, edges1: seq<Edge>, s: Node, g: Node, r: set<Node>, e: Edge)
    requires OneTarget(edges) && (forall e :: e in edges1 ==> e in edges && IsNode(e.dest)) && Clean(edges1, s)
    requires s.Stmt? && IsGoto(g) && !Inside(g, s) && r == if g.block == s.block then Counted(edges1, g) else {}
    requires e in edges && IsGoto(e.src) && e.src.block == s.block && e.src in Doomed(edges1, g)
    requires Inside(e.dest, s) || e.dest !in Doomed(edges1, g) || e.dest in r
    ensures e.src in r
  {
    var own1 := Filter(edges1, InBlock(g.block));
    FilterMembers(edges1, InBlock(g.block));
    DoomedAreGotos(edges1, g);
    DoomedIsCutOff(own1, g);
    if e.src != g {
      var e' :| e' in edges1 && e'.src == e.src && Dead(e'.dest, g, Doomed(edges1, g));
      assert SameGoto(e, e');
      DoomedIsCutOff(edges1, g);
      if Inside(e.dest, g) { GotoHoldsNothing(e.dest, g); }
    }
  }

  lemma CascadeReady(st0: State, st: State, pending: set<Node>, s: Node, cnt: nat, i: nat)
    requires InProgress(st0, st, pending, s, cnt) && i < |st.edges| && IsGoto(st.edges[i].src)
    ensures var st1 := st.(edges := Without(st.edges, i)); Closed(st1, pending) && CanRemove(st1.stms, pending, st.edges[i].src)
  {
    WithoutMembers(st.edges, i);
    FewerEdgesClosed(st, pending, Without(st.edges, i));
    assert st.edges[i] in st.edges;
    GotoCanGo(st.stms, pending, st.edges[i].src);
  }

  /** Deleting a goto that jumped into `s`, with all that follows from it, leaves the removal of `s`
      under way, and what is counted is what the inner removal counted in the same block. */
  lemma CascadeStep(st0: State, st: State, pending: set<Node>, s: Node, cnt: nat, i: nat)
    requires InProgress(st0, st, pending, s, cnt) && i < |st.edges| && Inside(st.edges[i].dest, s) && IsGoto(st.edges[i].src)
    ensures var g, st1 := st.edges[i].src, st.(edges := Without(st.edges, i));
      InProgress(st0, After(st1, g), pending, s, if g.block == s.block then cnt + |Counted(st1.edges, g)| else cnt)
  {
    var edge := st.edges[i];
    var g, st1 := edge.src, st.(edges := Without(st.edges, i));
    CascadeReady(st0, st, pending, s, cnt, i);
    EdgeErased(st0, st, pending, s, cnt, i);
    WithoutMembers(st.edges, i);
    assert edge in st.edges;
    DoomedIsCutOff(st0.edges, s);
    CascadeGoes(st0.edges, st1.edges, s, g);
    AfterIsClosed(st1, pending, g);
    CascadeAgrees(st0, st1, pending, s, g);
    FilterMembers(st1.edges, Apart(g, Doomed(st1.edges, g)));
    StatementStays(st1, pending, s, g);
    CascadeKeepsLost(st0, st, st1, pending, s, g, edge);
    CascadeCount(st0, st1, pending, s, g, edge);
  }

  lemma StatementStays(st1: State, pending: set<Node>, s: Node, g: Node)
    requires Closed(st1, pending) && CanRemove(st1.stms, pending, g) && CanRemove(st1.stms, pending, s) && Clean(st1.edges, s)
    requires IsGoto(g) && !Inside(g, s)
    ensures CanRemove(After(st1, g).stms, pending, s)
  {
    var d1 := Doomed(st1.edges, g);
    DoomedAreGotos(st1.edges, g);
    assert Inside(s, s);
    if Inside(s, g) { GotoHoldsNothing(s, g); }
    LiveAfter(st1.stms, pending, st1.edges, g, s);
    KeptStmsOk(st1.stms, d1);
  }

  lemma CascadeKeepsLost(st0: State, st: State, st1: State, pending: set<Node>, s: Node, g: Node, edge: Edge)
    requires Closed(st1, pending) && IsGoto(g) && g == edge.src && LostWithSource(st0.edges, st, s) && st1.stms == st.stms
    requires forall e :: e in st.edges ==> e == edge || e in st1.edges
    ensures LostWithSource(st0.edges, After(st1, g), s)
  {
    var st2 := After(st1, g);
    DoomedIsCutOff(st1.edges, g);
    forall e | e in st0.edges && e !in st2.edges && IsGoto(e.src) && !Inside(e.src, s)
      ensures !Listed(st2.stms, e.src)
    {
      ListedAfter(st1.stms, Doomed(st1.edges, g), e.src);
      if e in st1.edges { CascadeLosesSources(st1, pending, g, e); }
    }
  }

  lemma MissingAfter(stms: Lists, d: set<Node>, c: set<Node>)
    requires Missing(stms, d) == {}
    ensures |Missing(KeptStms(stms, d), c)| == |Missing(stms, c)| + |d * c|
  {
    forall x | x in d ensures Listed(stms, x) { assert x !in Missing(stms, d); }
    forall x | x in c ensures Listed(KeptStms(stms, d), x) <==> Listed(stms, x) && x !in d { ListedAfter(stms, d, x); }
    assert Missing(KeptStms(stms, d), c) == Missing(stms, c) + d * c;
    assert Missing(stms, c) !! d * c;
  }

  lemma CascadeCount(st0: State, st1: State, pending: set<Node>, s: Node, g: Node, edge: Edge)
    requires OneTarget(st0.edges) && Closed(st1, pending) && CanRemove(st1.stms, pending, g) && Clean(st1.edges, s)
    requires (forall e :: e in st1.edges ==> e in st0.edges) && s.Stmt? && IsGoto(g) && !Inside(g, s)
    requires edge in st0.edges && edge.src == g && Inside(edge.dest, s)
    ensures |Missing(After(st1, g).stms, Counted(st0.edges, s))| ==
      |Missing(st1.stms, Counted(st0.edges, s))| + if g.block == s.block then |Counted(st1.edges, g)| else 0
  {
    var c, d1 := Counted(st0.edges, s), Doomed(st1.edges, g);
    var before, after := Missing(st1.stms, c), Missing(After(st1, g).stms, c);
    CascadeCounts(st0.edges, st1.edges, s, g, edge);
    AllListed(st1, pending, g, st1.edges);
    MissingAfter(st1.stms, d1, c);
  }

  // ---------- the last step ----------

  /** When no edge leads into `s` any more, everything doomed but `s` is gone. */
  lemma AllGone(st0: State, st: State, pending: set<Node>, s: Node)
    requires LostWithSource(st0.edges, st, s) && EdgesClosed(st.edges, st.stms, pending) && PendingOk(pending)
    requires LeadElsewhere(st.edges, s)
    ensures forall x :: x in Doomed(st0.edges, s) && x != s ==> !Listed(st.stms, x)
  {
    var d := Doomed(st0.edges, s);
    var gone := {s} + Missing(st.stms, d);
    DoomedIsCutOff(st0.edges, s);
    DoomedAreGotos(st0.edges, s);
    forall e | e in st0.edges && IsGoto(e.src) && !Inside(e.src, s) && Dead(e.dest, s, gone) ensures e.src in gone {
      assert Dead(e.dest, s, d);
      SelfInside(s);
      assert e in st.edges ==> Live(st.stms, pending, e.dest) && !Inside(e.dest, s);
    }
    DoomedIsLeast(st0.edges, s, gone);
  }

  /** All that is counted is then gone, too. */
  lemma AllCounted(edges: seq<Edge>, stms: Lists, s: Node)
    requires Listed(stms, s) && forall x :: x in Doomed(edges, s) && x != s ==> !Listed(stms, x)
    ensures |Missing(stms, Counted(edges, s))| + 1 == |Counted(edges, s)|
  {
    var c, own := Counted(edges, s), Filter(edges, InBlock(s.block));
    FilterMembers(edges, InBlock(s.block));
    DoomedIsCutOff(edges, s);
    DoomedIsCutOff(own, s);
    DoomedIsLeast(own, s, Doomed(edges, s));
    assert Missing(stms, c) == c - {s};
  }

  ghost predicate OneErased(stms: Lists, stms': Lists, s: Node) {
    s.Stmt? && s.block in stms &&
    exists i: nat :: i < |stms[s.block]| && stms[s.block][i] == s && stms' == stms[s.block := Without(stms[s.block], i)]
  }

  lemma RemovalDone(st0: State, st: State, st': State, pending: set<Node>, s: Node, cnt: nat)
    requires InProgress(st0, st, pending, s, cnt) && LeadElsewhere(st.edges, s)
    requires OneErased(st.stms, st'.stms, s) && st' == st.(stms := st'.stms, blocks := Filter(st.blocks, NotInside(s)))
    ensures st' == After(st0, s) && cnt + 1 == |Counted(st0.edges, s)|
  {
    var d := Doomed(st0.edges, s);
    DoomedIsCutOff(st0.edges, s);
    AllGone(st0, st, pending, s);
    AllCounted(st0.edges, st.stms, s);
    OnlyItLeft(st.stms, st'.stms, s, d);
    EdgesApart(st.edges, st.stms, pending, st0.edges, s);
  }

  lemma EdgesApart(edges: seq<Edge>, stms: Lists, pending: set<Node>, edges0: seq<Edge>, s: Node)
    requires EdgesClosed(edges, stms, pending) && PendingOk(pending) && LeadElsewhere(edges, s) && Clean(edges, s)
    requires forall x :: x in Doomed(edges0, s) && x != s ==> !Listed(stms, x)
    ensures Filter(edges, Apart(s, Doomed(edges0, s))) == edges
  {
    var d := Doomed(edges0, s);
    DoomedAreGotos(edges0, s);
    SelfInside(s);
    forall e | e in edges ensures !Dead(e.src, s, d) && !Dead(e.dest, s, d) {
      assert Live(stms, pending, e.src) && Live(stms, pending, e.dest);
    }
    FilterAll(edges, Apart(s, d));
  }

  lemma OnlyItLeft(stms: Lists, stms': Lists, s: Node, d: set<Node>)
    requires ListsOk(stms) && OneErased(stms, stms', s) && s in d
    requires forall x :: x in d && x != s ==> !Listed(stms, x)
    ensures stms' == KeptStms(stms, d)
  {
    var i: nat :| i < |stms[s.block]| && stms[s.block][i] == s && stms' == stms[s.block := Without(stms[s.block], i)];
    forall k | k in stms ensures stms'[k] == Filter(stms[k], NotIn(d)) {
      if k == s.block { FilterErase(stms[k], NotIn(d), i); }
      forall x | x in stms'[k] ensures x !in d { assert x in stms[k]; }
      FilterAll(stms'[k], NotIn(d));
    }
  }

  lemma GotoCanGo(stms: Lists, pending: set<Node>, g: Node)
    requires ListsOk(stms) && Live(stms, pending, g) && IsGoto(g) && IsNode(g)
    requires forall p :: p in pending ==> p.Stmt? && p.kind.Compound? && IsNode(p)
    ensures CanRemove(stms, pending, g)
  {
    forall p | p in pending ensures !Inside(p, g) { if Inside(p, g) { GotoHoldsNothing(p, g); } }
  }

  // ---------- the function under construction ----------

  class Func {
    var stms: Lists
    var breakStms: Lists
    var cfgEdges: seq<Edge>
    var blocks: seq<Node>
    const pending: set<Node>

    function View(): State
      reads this
    {
      State(stms, breakStms, cfgEdges, blocks)
    }

    constructor ()
      ensures Closed(View(), pending) && GotosLinked(View(), pending) && View() == State(map[Root := []], map[], [], [Root])
    {
      stms, breakStms, cfgEdges, blocks, pending := map[Root := []], map[], [], [Root], {};
    }

    method EraseBreaks(jumps: set<Node>, b: Node)
      requires b in breakStms
      modifies this`breakStms
      ensures breakStms == old(breakStms)[b := Filter(old(breakStms)[b], NotIn(jumps))]
    {
      var xs, i := breakStms[b], 0;
      while i < |xs|
        invariant 0 <= i <= |xs| && forall k :: 0 <= k < i ==> xs[k] !in jumps
        invariant breakStms == old(breakStms) && Filter(xs, NotIn(jumps)) == Filter(old(breakStms)[b], NotIn(jumps))
        decreases |xs| - i
      {
        if xs[i] in jumps {
          FilterErase(xs, NotIn(jumps), i);
          xs := Without(xs, i);
        } else {
          i := i + 1;
        }
      }
      FilterAll(xs, NotIn(jumps));
      breakStms := breakStms[b := xs];
    }

    method EraseSources(jumps: set<Node>)
      modifies this`cfgEdges
      ensures cfgEdges == Filter(old(cfgEdges), SourceNotIn(jumps))
    {
      var i := 0;
      while i < |cfgEdges|
        invariant 0 <= i <= |cfgEdges| && forall k :: 0 <= k < i ==> cfgEdges[k].src !in jumps
        invariant Filter(cfgEdges, SourceNotIn(jumps)) == Filter(old(cfgEdges), SourceNotIn(jumps))
        decreases |cfgEdges| - i
        modifies this`cfgEdges
      {
        if cfgEdges[i].src in jumps {
          FilterErase(cfgEdges, SourceNotIn(jumps), i);
          cfgEdges := Without(cfgEdges, i);
        } else {
          i := i + 1;
        }
      }
      FilterAll(cfgEdges, SourceNotIn(jumps));
    }

    method EraseBlocks(s: Node)
      modifies this`blocks
      ensures blocks == Filter(old(blocks), NotInside(s))
    {
      var i := 0;
      while i < |blocks|
        invariant 0 <= i <= |blocks| && forall k :: 0 <= k < i ==> !Inside(blocks[k], s)
        invariant Filter(blocks, NotInside(s)) == Filter(old(blocks), NotInside(s))
        decreases |blocks| - i
        modifies this`blocks
      {
        if Inside(blocks[i], s) {
          FilterErase(blocks, NotInside(s), i);
          blocks := Without(blocks, i);
        } else {
          i := i + 1;
        }
      }
      FilterAll(blocks, NotInside(s));
    }

    method EraseStatement(s: Node)
      requires Listed(stms, s)
      modifies this`stms
      ensures OneErased(old(stms), stms, s)
    {
      var xs, i: nat := stms[s.block], 0;
      while i < |xs| && xs[i] != s
        invariant i <= |xs| && s !in xs[..i]
      {
        i := i + 1;
      }
      assert xs[..|xs|] == xs;
      stms := stms[s.block := Without(xs, i)];
    }

    /** `remove_stmt`: deletes `s` from its block, and every goto that jumps into what is deleted. The
        count leaves out gotos of the block that went because of one in another block. */
    method RemoveStmt(s: Node) returns (cnt: nat)
      requires Closed(View(), pending) && CanRemove(stms, pending, s)
      modifies this`stms, this`breakStms, this`cfgEdges, this`blocks
      ensures View() == After(old(View()), s)
      ensures cnt == |Counted(old(cfgEdges), s)|
      decreases |cfgEdges|, 4
    {
      ghost var st0 := View();
      EraseJumps(s);
      cnt := EraseIncoming(s, st0);
      EraseItself(s, st0, cnt);
      cnt := cnt + 1;
    }

    /** Deletes the blocks inside `s`, and `s`. */
    method EraseItself(s: Node, ghost st0: State, ghost cnt: nat)
      requires InProgress(st0, View(), pending, s, cnt) && LeadElsewhere(cfgEdges, s)
      modifies this`stms, this`blocks
      ensures View() == After(st0, s) && cnt + 1 == |Counted(st0.edges, s)|
    {
      ghost var st := View();
      EraseBlocks(s);
      EraseStatement(s);
      RemovalDone(st0, st, View(), pending, s, cnt);
    }

    /** Takes the jumps inside `s` out of the break list of the loop around it and out of the graph. */
    method EraseJumps(s: Node)
      requires Closed(View(), pending) && CanRemove(stms, pending, s)
      modifies this`breakStms, this`cfgEdges
      ensures InProgress(old(View()), View(), pending, s, 0) && |cfgEdges| <= |old(cfgEdges)|
    {
      ghost var st0 := View();
      var jumps := Jumps(stms, s);
      AllJumpsFound(st0, pending, s);
      var b := NearestLoop(s.block);
      BreaksErased(st0, pending, s, jumps, b);
      if b in breakStms { EraseBreaks(jumps, b); }
      EraseSources(jumps);
      JumpsErased(st0, View(), pending, s, jumps);
      FilterLength(st0.edges, SourceNotIn(jumps));
    }

    /** Deletes the edges that lead into `s`, and the gotos they come from. */
    method EraseIncoming(s: Node, ghost st0: State) returns (cnt: nat)
      requires InProgress(st0, View(), pending, s, 0)
      modifies this`stms, this`breakStms, this`cfgEdges, this`blocks
      ensures InProgress(st0, View(), pending, s, cnt) && LeadElsewhere(cfgEdges, s)
      decreases |cfgEdges|, 3
    {
      cnt := 0;
      var i: nat := 0;
      while i < |cfgEdges|
        invariant i <= |cfgEdges| <= |old(cfgEdges)| && LeadElsewhere(cfgEdges[..i], s)
        invariant InProgress(st0, View(), pending, s, cnt)
        decreases |cfgEdges|, |cfgEdges| - i
        modifies this`stms, this`breakStms, this`cfgEdges, this`blocks
      {
        cnt, i := VisitEdge(s, i, st0, cnt);
      }
      assert cfgEdges[..i] == cfgEdges;
    }

    /** One step of the loop over the edges; after a cascade it starts again from the first edge. */
    method VisitEdge(s: Node, i: nat, ghost st0: State, cnt: nat) returns (cnt': nat, next: nat)
      requires InProgress(st0, View(), pending, s, cnt)
      requires i < |cfgEdges| && LeadElsewhere(cfgEdges[..i], s)
      modifies this`stms, this`breakStms, this`cfgEdges, this`blocks
      ensures InProgress(st0, View(), pending, s, cnt')
      ensures next <= |cfgEdges| && LeadElsewhere(cfgEdges[..next], s)
      ensures |cfgEdges| < |old(cfgEdges)| || (|cfgEdges| == |old(cfgEdges)| && next == i + 1)
      decreases |cfgEdges|, 2
    {
      ghost var edges := cfgEdges;
      if Inside(cfgEdges[i].dest, s) {
        var len := |cfgEdges| - 1;
        cnt' := EraseEdge(s, i, st0, cnt);
        if |cfgEdges| != len {
          next := 0;
        } else {
          PrefixKept(edges, cfgEdges, i, s);
          next := i;
        }
      } else {
        PrefixGrows(edges, i, s);
        cnt', next := cnt, i + 1;
      }
    }

    /** Deletes the edge at `i`, which leads into `s`, and the goto it comes from. */
    method EraseEdge(s: Node, i: nat, ghost st0: State, cnt: nat) returns (cnt': nat)
      requires InProgress(st0, View(), pending, s, cnt) && i < |cfgEdges| && Inside(cfgEdges[i].dest, s)
      modifies this`stms, this`breakStms, this`cfgEdges, this`blocks
      ensures InProgress(st0, View(), pending, s, cnt')
      ensures |cfgEdges| < |old(cfgEdges)|
      ensures |cfgEdges| == |old(cfgEdges)| - 1 ==> cfgEdges == Without(old(cfgEdges), i)
      decreases |cfgEdges|, 1
    {
      if IsGoto(cfgEdges[i].src) {
        cnt' := EraseGoto(s, i, st0, cnt);
      } else {
        EdgeErased(st0, View(), pending, s, cnt, i);
        cfgEdges := Without(cfgEdges, i);
        cnt' := cnt;
      }
    }

    method EraseGoto(s: Node, i: nat, ghost st0: State, cnt: nat) returns (cnt': nat)
      requires InProgress(st0, View(), pending, s, cnt) && i < |cfgEdges| && Inside(cfgEdges[i].dest, s)
      requires IsGoto(cfgEdges[i].src)
      modifies this`stms, this`breakStms, this`cfgEdges, this`blocks
      ensures InProgress(st0, View(), pending, s, cnt')
      ensures |cfgEdges| < |old(cfgEdges)|
      ensures |cfgEdges| == |old(cfgEdges)| - 1 ==> cfgEdges == Without(old(cfgEdges), i)
      decreases |cfgEdges|, 0
    {
      var src := cfgEdges[i].src;
      CascadeReady(st0, View(), pending, s, cnt, i);
      CascadeStep(st0, View(), pending, s, cnt, i);
      cfgEdges := Without(cfgEdges, i);
      FilterLength(cfgEdges, Apart(src, Doomed(cfgEdges, src)));
      var deleted := RemoveStmt(src);
      cnt' := if src.block == s.block then cnt + deleted else cnt;
    }

    /** The repair step of `post_creation_analysis`: deletes the statement at `index` of block `b`
        until none is left there. */
    method DeleteFrom(b: Node, index: nat)
      requires Deletable(View(), pending, b) && index < |stms[b]|
      modifies this`stms, this`breakStms, this`cfgEdges, this`blocks
      ensures View() == DeletedFrom(old(View()), b, index)
    {
      var i, len := index, |stms[b]|;
      while i < len
        invariant Deletable(View(), pending, b) && i == index && len == |stms[b]|
        invariant DeletedFrom(View(), b, index) == DeletedFrom(old(View()), b, index)
        decreases len
        modifies this`stms, this`breakStms, this`cfgEdges, this`blocks
      {
        RemovalShrinks(View(), b, index);
        BlockStays(View(), pending, b, stms[b][i]);
        var d := RemoveStmt(stms[b][i]);
        i := index;
        len := |stms[b]|;
      }
    }

    /** The loop around it: as long as the analysis, which may answer differently in every round, fails
        at some statement, that statement and the later ones are deleted. The body of a loop gets its
        back edge as soon as its end is reached. */
    method Repair(b: Node, analyse: (nat, State) -> Option<nat>, reachesEnd: Lists -> bool, loopBody: bool) returns (round: nat)
      requires Deletable(View(), pending, b)
      requires forall r: nat, st: State, i: nat :: b in st.stms && analyse(r, st) == Some(i) ==> i < |st.stms[b]|
      modifies this`stms, this`breakStms, this`cfgEdges, this`blocks
      ensures Repaired(old(View()), View(), pending, b) && analyse(round, View()) == None
      ensures reachesEnd(stms) && (loopBody || stms != old(stms)) ==> Edge(b, b) in cfgEdges
    {
      ghost var st0 := View();
      var selfEdge := false;
      if loopBody && reachesEnd(stms) {
        selfEdge := true;
        AddBackEdge(b);
      }
      round := 0;
      var failIndex := analyse(round, View());
      while failIndex.Some?
        invariant Repaired(st0, View(), pending, b) && failIndex == analyse(round, View())
        invariant selfEdge ==> Edge(b, b) in cfgEdges
        invariant reachesEnd(stms) && (loopBody || stms != st0.stms) ==> selfEdge
        decreases |stms[b]|
        modifies this`stms, this`breakStms, this`cfgEdges, this`blocks
      {
        selfEdge := RepairStep(b, failIndex.value, selfEdge, reachesEnd, st0);
        round := round + 1;
        failIndex := analyse(round, View());
      }
    }

    method RepairStep(b: Node, index: nat, selfEdge0: bool, reachesEnd: Lists -> bool, ghost st0: State) returns (selfEdge: bool)
      requires Repaired(st0, View(), pending, b) && index < |stms[b]| && (selfEdge0 ==> Edge(b, b) in cfgEdges)
      modifies this`stms, this`breakStms, this`cfgEdges, this`blocks
      ensures stms == DeletedFrom(old(View()), b, index).stms
      ensures Repaired(st0, View(), pending, b) && |stms[b]| <= index
      ensures (selfEdge ==> Edge(b, b) in cfgEdges) && (reachesEnd(stms) ==> selfEdge)
    {
      ghost var st := View();
      DeleteFrom(b, index);
      DeletionRepairs(st, pending, b, index);
      RepairedTwice(st0, st, View(), pending, b);
      selfEdge := selfEdge0;
      if !selfEdge && reachesEnd(stms) {
        selfEdge := true;
        ghost var before := View();
        AddBackEdge(b);
        RepairedTwice(st0, before, View(), pending, b);
      }
    }

    method AddBackEdge(b: Node)
      requires Deletable(View(), pending, b)
      modifies this`cfgEdges
      ensures Repaired(old(View()), View(), pending, b) && cfgEdges == old(cfgEdges) + [Edge(b, b)]
    {
      cfgEdges := cfgEdges + [Edge(b, b)];
    }
  }

  lemma PrefixGrows(a: seq<Edge>, i: nat, s: Node)
    requires i < |a| && LeadElsewhere(a[..i], s) && !Inside(a[i].dest, s)
    ensures LeadElsewhere(a[..i + 1], s)
  {
    assert a[..i + 1] == a[..i] + [a[i]];
  }

  lemma PrefixKept(a: seq<Edge>, b: seq<Edge>, i: nat, s: Node)
    requires i < |a| && b == Without(a, i) && LeadElsewhere(a[..i], s)
    ensures i <= |b| && LeadElsewhere(b[..i], s)
  {
    assert b[..i] == a[..i];
  }
}
