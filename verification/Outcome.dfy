/** Exactly which facts the analysis of a statement ends with and records. */
module Outcomes {
  // The relation between records before and after an analysis, read as exact sets of pointees: both
  // branches of an `if`, the breaks of a `for`, the back edges of a loop body, the end of a block.
  // And the only reasons for an analysis to fail.

  import opened Collections
  import opened Variables
  import opened Facts
  import opened PointsTo
  import opened Expressions
  import opened CGContexts
  import opened Statements
  import opened ScopeSound
  import opened Analysis
  import opened FixedPoint
  import opened AnalysisRuns
  import opened RecordedEffects
  import opened Acceptance
  import opened Precision

  // ---------- expressions ----------

  /** The expression of a statement is refused exactly if it is not allowed anywhere or its accesses
      clash with the surroundings; otherwise facts and accesses are those it has alone. */
  lemma ExprExactly(e: Expr, fs: FactVec, around: Effect, noWrite: set<Variable>)
    ensures Refuses(e, fs, around, noWrite) <==> Own(e, fs).None? || !Fits(Own(e, fs).value.1.accum, around, noWrite)
    ensures !Refuses(e, fs, around, noWrite) ==>
      && FactsAfter(e, fs, around, noWrite) == Own(e, fs).value.0
      && EffectOf(e, fs, around, noWrite).readVars == Own(e, fs).value.1.accum.readVars
      && EffectOf(e, fs, around, noWrite).writeVars == Own(e, fs).value.1.accum.writeVars
  {
    VisitFactors(e, fs, Context(around, NO_EFFECT, NO_EFFECT, noWrite));
  }

  // ---------- edges ----------

  /** An edge leads from `src` to the end of `dest`, or, with `back`, back to its beginning. */
  predicate Leaves(edges: seq<Edge>, src: nat, dest: nat) { Edge(src, dest, true, false) in edges }

  predicate LeadsBack(edges: seq<Edge>, src: nat, dest: nat) { Edge(src, dest, false, true) in edges }

  lemma {:induction false} SourcesExactly(edges: seq<Edge>, dest: nat, postDest: bool, backLink: bool, id: nat)
    ensures id in Sources(edges, dest, postDest, backLink) <==> Edge(id, dest, postDest, backLink) in edges
  {
    if edges != [] {
      assert edges == [edges[0]] + edges[1..];
      SourcesExactly(edges[1..], dest, postDest, backLink, id);
    }
  }

  // ---------- statements ----------

  /** What is recorded for the statement itself: the facts it was analysed from, and those it ended with;
      of a jump, without the locals of the loop body. */
  lemma StatementRecords(x: Stmt, lp: seq<Variable>, fs: FactVec, out: FactVec, r: Records, q: Records, around: Effect, noWrite: set<Variable>, w: Variable)
    requires Ran(x, lp, fs, out, r, q, around, noWrite) && !Reusable(x, fs, r) && WellFormed(out) && GarbagePtr !in lp
    ensures At(q.factsIn, x.id) == fs && x.id in q.visited
    ensures !x.Break? && !x.Continue? ==> At(q.factsOut, x.id) == out
    ensures x.Break? || x.Continue? ==>
      && (Has(At(q.factsOut, x.id), w) <==> Has(out, w) && w !in lp)
      && (w !in lp ==> ToSet(Pointees(At(q.factsOut, x.id), w)) == Survivors(ToSet(Pointees(out, w)), ToSet(lp)))
  {
    ScopeExitIsExact(out, lp, w);
    var m :| VisitRan(x, lp, fs, out, r, m, around, noWrite) && q == Storing(m, x, fs, out, lp);
    VisitMarks(x, lp, fs, out, r, m, around, noWrite);
  }

  lemma VisitMarks(x: Stmt, lp: seq<Variable>, fs: FactVec, out: FactVec, r: Records, m: Records, around: Effect, noWrite: set<Variable>)
    requires VisitRan(x, lp, fs, out, r, m, around, noWrite)
    ensures x.id in m.visited
  {
    match x
    case If(_, _, thn, els) =>
      var o1, o2, r2, r3 := IfTaken(x, lp, fs, out, r, m, around, noWrite);
      var gs := FactsAfter(x.test, fs, around, noWrite);
      BlockRanOutside(thn, lp, gs, o1, r.Marked(x.id), r2, around, noWrite);
      BlockRanOutside(els, lp, gs, o2, r2, r3, around, noWrite);
    case For(_, init, iv, _, _, body) =>
      var o, r2 := ForTaken(x, lp, fs, out, r, m, around, noWrite);
      BlockRanOutside(body, [], FactsAfter(init, fs, around, noWrite), o, r.Marked(x.id), r2, around, noWrite + {iv});
    case _ =>
  }

  /** A statement that is no jump ends with what is recorded for it, reused or not. */
  lemma EndsAsRecorded(x: Stmt, lp: seq<Variable>, fs: FactVec, out: FactVec, r: Records, q: Records, around: Effect, noWrite: set<Variable>)
    requires Ran(x, lp, fs, out, r, q, around, noWrite) && !x.Break? && !x.Continue?
    ensures At(q.factsOut, x.id) == out
  {}

  /** Any other statement ends with the facts that its expression leaves. */
  lemma SimpleExactly(x: Stmt, lp: seq<Variable>, fs: FactVec, out: FactVec, r: Records, q: Records, around: Effect, noWrite: set<Variable>)
    requires !x.If? && !x.For? && Ran(x, lp, fs, out, r, q, around, noWrite) && !Reusable(x, fs, r)
    ensures Own(FirstExpr(x), fs).Some? && out == Own(FirstExpr(x), fs).value.0
  {
    ExprExactly(FirstExpr(x), fs, around, noWrite);
  }

  /** Both branches are analysed from the facts that the test leaves. */
  lemma BranchesStart(x: Stmt, lp: seq<Variable>, fs: FactVec, out: FactVec, r: Records, q: Records, around: Effect, noWrite: set<Variable>)
    returns (r2: Records, r3: Records)
    requires x.If? && Distinct(x) && Ran(x, lp, fs, out, r, q, around, noWrite) && !Reusable(x, fs, r)
    ensures Own(x.test, fs).Some? && out == MergedAll(At(q.factsOut, x.thn.id), At(q.factsOut, x.els.id))
    ensures BlockRan(x.thn, lp, Own(x.test, fs).value.0, At(q.factsOut, x.thn.id), r.Marked(x.id), r2, around, noWrite)
    ensures BlockRan(x.els, lp, Own(x.test, fs).value.0, At(q.factsOut, x.els.id), r2, r3, around, noWrite)
  {
    var m :| VisitRan(x, lp, fs, out, r, m, around, noWrite) && q == Storing(m, x, fs, out, lp);
    var o1, o2;
    o1, o2, r2, r3 := IfTaken(x, lp, fs, out, r, m, around, noWrite);
    ExprExactly(x.test, fs, around, noWrite);
    assert x.thn.id in BlockIds(x.thn) && x.els.id in BlockIds(x.els);
    BlockRanOutside(x.els, lp, FactsAfter(x.test, fs, around, noWrite), o2, r2, r3, around, noWrite);
  }

  /** After an `if` a variable may point to what it may point to at the end of either branch. */
  lemma IfExactly(x: Stmt, lp: seq<Variable>, fs: FactVec, out: FactVec, r: Records, q: Records, around: Effect, noWrite: set<Variable>, v: Variable, p: Variable)
    requires x.If? && Distinct(x) && Ran(x, lp, fs, out, r, q, around, noWrite) && !Reusable(x, fs, r)
    requires WellFormed(At(q.factsOut, x.els.id))
    ensures p in Pointees(out, v) <==> p in Pointees(At(q.factsOut, x.thn.id), v) || p in Pointees(At(q.factsOut, x.els.id), v)
  {
    var r2, r3 := BranchesStart(x, lp, fs, out, r, q, around, noWrite);
    MergedAllExactly(At(q.factsOut, x.thn.id), At(q.factsOut, x.els.id), v, p);
  }

  /** A break brings the pointees it was taken with to the variables known at the head of the loop. */
  predicate BrokenWith(q: Records, dest: nat, src: nat, v: Variable, p: Variable) {
    Leaves(q.cfgEdges, src, dest) && if Has(At(q.factsOut, src), v) then p in Pointees(At(q.factsOut, src), v) else p == GarbagePtr
  }

  /** After a `for` a variable may point to what it may point to at the head of the loop or at a break. */
  lemma ForExactly(x: Stmt, lp: seq<Variable>, fs: FactVec, out: FactVec, r: Records, q: Records, around: Effect, noWrite: set<Variable>, v: Variable, p: Variable)
    requires x.For? && Distinct(x) && Ran(x, lp, fs, out, r, q, around, noWrite) && !Reusable(x, fs, r)
    requires forall id :: Leaves(q.cfgEdges, id, x.id) ==> id != x.id && WellFormed(At(q.factsOut, id))
    requires WellFormed(At(q.factsIn, x.body.id))
    ensures p in Pointees(out, v) <==>
      || p in Pointees(At(q.factsIn, x.body.id), v)
      || (Has(At(q.factsIn, x.body.id), v) && exists id :: BrokenWith(q, x.id, id, v, p))
  {
    var m :| VisitRan(x, lp, fs, out, r, m, around, noWrite) && q == Storing(m, x, fs, out, lp);
    var o, r2 := ForTaken(x, lp, fs, out, r, m, around, noWrite);
    assert x.body.id in BlockIds(x.body);
    var srcs := Sources(r2.cfgEdges, x.id, true, false);
    forall id ensures id in srcs <==> Leaves(q.cfgEdges, id, x.id) { SourcesExactly(r2.cfgEdges, x.id, true, false, id); }
    forall id | id in srcs ensures At(r2.factsOut, id) == At(q.factsOut, id) { assert Leaves(q.cfgEdges, id, x.id); }
    var head := At(r2.factsIn, x.body.id);
    assert head == At(q.factsIn, x.body.id);
    JumpMergedAllExactly(head, srcs, r2.factsOut, v, p);
    forall id ensures id in srcs && BroughtBy(At(r2.factsOut, id), v, p) <==> BrokenWith(q, x.id, id, v, p) {}
  }

  /** The body is analysed from the facts that the initialiser leaves, outside all other loops, and with
      the induction variable write-protected. */
  lemma BodyStarts(x: Stmt, lp: seq<Variable>, fs: FactVec, out: FactVec, r: Records, q: Records, around: Effect, noWrite: set<Variable>)
    returns (o: FactVec, r2: Records)
    requires x.For? && Distinct(x) && Ran(x, lp, fs, out, r, q, around, noWrite) && !Reusable(x, fs, r)
    ensures Own(x.init, fs).Some? && At(r2.factsIn, x.body.id) == At(q.factsIn, x.body.id)
    ensures BlockRan(x.body, [], Own(x.init, fs).value.0, o, r.Marked(x.id), r2, around, noWrite + {x.iv})
  {
    var m :| VisitRan(x, lp, fs, out, r, m, around, noWrite) && q == Storing(m, x, fs, out, lp);
    o, r2 := ForTaken(x, lp, fs, out, r, m, around, noWrite);
    ExprExactly(x.init, fs, around, noWrite);
    assert x.body.id in BlockIds(x.body);
  }

  /** The body of a `for` never writes the induction variable, nor what may not be written around it. */
  lemma InductionKept(x: Stmt, lp: seq<Variable>, fs: FactVec, out: FactVec, r: Records, q: Records, around: Effect, noWrite: set<Variable>)
    requires x.For? && Distinct(x) && Ran(x, lp, fs, out, r, q, around, noWrite) && !Reusable(x, fs, r)
    ensures q.Effect(x.body.id).writeVars !! noWrite + {x.iv}
    ensures Fits(q.Effect(x.body.id), around, noWrite)
  {
    var m :| VisitRan(x, lp, fs, out, r, m, around, noWrite) && q == Storing(m, x, fs, out, lp);
    var o, r2 := ForTaken(x, lp, fs, out, r, m, around, noWrite);
    var gs := FactsAfter(x.init, fs, around, noWrite);
    assert x.body.id in BlockIds(x.body);
    var s :| SearchRan(x.body, [], false, gs, r.Marked(x.id), s, around, noWrite + {x.iv}) && o == At(s.factsOut, x.body.id) && r2 == s.Marked(x.body.id);
    var heads, rs := SearchTaken(x.body, [], false, gs, r.Marked(x.id), s, around, noWrite + {x.iv});
  }

  // ---------- blocks ----------

  /** The in-facts of a block that has been visited: a variable has the pointees it had and those at the
      source of any back edge. Before the first visit nothing is fed back. */
  lemma FedExactly(b: Block, fs: FactVec, r: Records, v: Variable, p: Variable)
    requires forall id :: LeadsBack(r.cfgEdges, id, b.id) ==> WellFormed(At(r.factsOut, id))
    ensures p in Pointees(Fed(b, fs, r), v) <==>
      || p in Pointees(fs, v)
      || (b.id in r.visited && exists id :: LeadsBack(r.cfgEdges, id, b.id) && p in Pointees(At(r.factsOut, id), v))
  {
    var srcs := Sources(r.cfgEdges, b.id, false, true);
    forall id ensures id in srcs <==> LeadsBack(r.cfgEdges, id, b.id) { SourcesExactly(r.cfgEdges, b.id, false, true, id); }
    MergedSourcesExactly(fs, srcs, r.factsOut, v, p);
  }

  /** `p` comes to `v` over a back edge of `b`. */
  ghost predicate FedBack(b: Block, r: Records, v: Variable, p: Variable) {
    b.id in r.visited && exists id :: LeadsBack(r.cfgEdges, id, b.id) && p in Pointees(At(r.factsOut, id), v)
  }

  ghost predicate SourcesWellFormed(b: Block, r: Records) {
    forall id :: LeadsBack(r.cfgEdges, id, b.id) ==> WellFormed(At(r.factsOut, id))
  }

  /** In the fixed-point search a variable has, before each round, the pointees it came with and those
      that came over a back edge so far, and no others. */
  lemma {:induction false} HeadsExactly(b: Block, lp: seq<Variable>, once: bool, fs: FactVec, heads: seq<FactVec>, rs: seq<Records>, r: Records,
                                        around: Effect, noWrite: set<Variable>, n: nat, v: Variable, p: Variable)
    requires Rounds(b, lp, once, fs, heads, rs, r, around, noWrite) && n < |rs|
    requires forall k :: 0 <= k < |rs| ==> SourcesWellFormed(b, rs[k])
    ensures p in Pointees(heads[n], v) <==> p in Pointees(fs, v) || exists k :: 0 <= k <= n && FedBack(b, rs[k], v, p)
    decreases n
  {
    if n == 0 {
      FedExactly(b, fs, r, v, p);
      assert FedBack(b, rs[0], v, p) ==> p in Pointees(heads[0], v);
    } else {
      var k := n - 1;
      HeadsExactly(b, lp, once, fs, heads, rs, r, around, noWrite, k, v, p);
      assert NextRound(b, lp, once && k == 0, heads[k], heads[n], rs[k], rs[n], around, noWrite);
      assert SourcesWellFormed(b, rs[n]);
      FedExactly(b, heads[k], rs[n], v, p);
      assert p in Pointees(heads[n], v) <==> p in Pointees(heads[k], v) || FedBack(b, rs[n], v, p);
    }
  }

  /** A search that need not make a pass makes none if the in-facts are the recorded ones already and the
      recorded effect fits. */
  lemma SettledAtOnce(b: Block, lp: seq<Variable>, fs: FactVec, r: Records, q: Records, around: Effect, noWrite: set<Variable>)
    requires SearchRan(b, lp, false, fs, r, q, around, noWrite)
    requires SameFactsSpec(Fed(b, fs, r), At(r.factsIn, b.id)) && Fits(r.Effect(b.id), around, noWrite)
    ensures q == r
  {
    assert Rounds(b, lp, false, fs, [Fed(b, fs, r)], [r], r, around, noWrite);
    SearchRanOnce(b, lp, false, fs, r, around, noWrite, q, r);
  }

  /** A search that has settled has in-facts that are the recorded ones, and an effect that fits. */
  lemma SettledFits(b: Block, lp: seq<Variable>, once: bool, fs: FactVec, r: Records, q: Records, around: Effect, noWrite: set<Variable>)
    returns (heads: seq<FactVec>, rs: seq<Records>)
    requires SearchRan(b, lp, once, fs, r, q, around, noWrite)
    ensures Rounds(b, lp, once, fs, heads, rs, r, around, noWrite) && rs[|rs| - 1] == q
    ensures SameFactsSpec(heads[|rs| - 1], At(q.factsIn, b.id)) && Fits(q.Effect(b.id), around, noWrite)
  {
    heads, rs := SearchTaken(b, lp, once, fs, r, q, around, noWrite);
  }

  /** A pass records the in-facts it began with, and the facts its last statement ended with, without
      the locals of the block. */
  lemma BlockEndExactly(b: Block, lp: seq<Variable>, head: FactVec, r: Records, q: Records, around: Effect, noWrite: set<Variable>, w: Variable)
    requires BlockDistinct(b) && PassRan(b, lp, head, r, q, around, noWrite) && b.stms != []
    requires var last := b.stms[|b.stms| - 1]; !last.Break? && !last.Continue? && WellFormed(At(q.factsOut, last.id))
    requires GarbagePtr !in DeclVars(b.locals)
    ensures At(q.factsIn, b.id) == head && b.id in q.visited
    ensures var end, vs := At(q.factsOut, b.stms[|b.stms| - 1].id), DeclVars(b.locals);
      && (Has(At(q.factsOut, b.id), w) <==> Has(end, w) && w !in vs)
      && (w !in vs ==> ToSet(Pointees(At(q.factsOut, b.id), w)) == Survivors(ToSet(Pointees(end, w)), ToSet(vs)))
  {
    var n := |b.stms|;
    var trail: seq<FactVec>, ms: seq<Records> :| Through(b, lp, head, trail, ms, r, around, noWrite) && |ms| == n + 1 && q == PassStored(ms[n], b, head, trail[n]);
    var k := n - 1;
    assert Ran(b.stms[k], DeclVars(b.locals) + lp, trail[k], trail[k + 1], ms[k], ms[k + 1], around, noWrite);
    EndsAsRecorded(b.stms[k], DeclVars(b.locals) + lp, trail[k], trail[n], ms[k], ms[n], around, noWrite);
    IdInSeq(b.stms, k);
    assert b.stms[k].id != b.id;
    ScopeExitIsExact(trail[n], DeclVars(b.locals), w);
  }

  // ---------- failure ----------

  /** A `for` whose initialiser is allowed fails only in its body, and nothing without a body fails. */
  lemma FailsInside(x: Stmt, lp: seq<Variable>, fs: FactVec, r: Records, q: Records, around: Effect, noWrite: set<Variable>)
    requires !x.If? && Failed(x, lp, fs, r, q, around, noWrite) && !Reusable(x, fs, r)
    requires Own(FirstExpr(x), fs).Some? && Fits(Own(FirstExpr(x), fs).value.1.accum, around, noWrite)
    ensures x.For? && BlockFailed(x.body, [], Own(x.init, fs).value.0, r.Marked(x.id), q, around, noWrite + {x.iv})
  {
    ExprExactly(FirstExpr(x), fs, around, noWrite);
  }

  /** An `if` whose test is allowed fails only in its first branch, or after that in its second one. */
  lemma FailsInBranch(x: Stmt, lp: seq<Variable>, fs: FactVec, r: Records, q: Records, around: Effect, noWrite: set<Variable>)
    returns (o: FactVec, r2: Records)
    requires x.If? && Failed(x, lp, fs, r, q, around, noWrite) && !Reusable(x, fs, r)
    requires Own(x.test, fs).Some? && Fits(Own(x.test, fs).value.1.accum, around, noWrite)
    ensures var gs := Own(x.test, fs).value.0;
      || BlockFailed(x.thn, lp, gs, r.Marked(x.id), q, around, noWrite)
      || (BlockRan(x.thn, lp, gs, o, r.Marked(x.id), r2, around, noWrite) && BlockFailed(x.els, lp, gs, r2, q, around, noWrite))
  {
    ExprExactly(x.test, fs, around, noWrite);
    var gs, r1 := Own(x.test, fs).value.0, r.Marked(x.id);
    o, r2 := gs, r1;
    assert BothFailed(x, lp, gs, r1, q, around, noWrite);
    if !BlockFailed(x.thn, lp, gs, r1, q, around, noWrite) {
      o, r2 :| BlockRan(x.thn, lp, gs, o, r1, r2, around, noWrite) && BlockFailed(x.els, lp, gs, r2, q, around, noWrite);
    }
  }

  /** The expression of a statement that is not allowed makes it fail, and only marks it as visited. */
  lemma FailsAtOnce(x: Stmt, lp: seq<Variable>, fs: FactVec, r: Records, around: Effect, noWrite: set<Variable>)
    requires !Reusable(x, fs, r)
    requires Own(FirstExpr(x), fs).None? || !Fits(Own(FirstExpr(x), fs).value.1.accum, around, noWrite)
    ensures Failed(x, lp, fs, r, r.Marked(x.id), around, noWrite)
  {
    ExprExactly(FirstExpr(x), fs, around, noWrite);
  }
}
