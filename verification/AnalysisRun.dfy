/** The analysis of statements as a relation between the records before and after. */
module AnalysisRuns {
  // One relation says what a successful analysis does, another what a failing one does, step by step
  // as the fact manager goes: reuse of records, both branches, every round of a fixed-point search,
  // every statement of a pass. From given facts and records at most one of them holds, with one
  // result.

  import opened Collections
  import opened Variables
  import opened Facts
  import opened PointsTo
  import opened Expressions
  import opened CGContexts
  import opened Scopes
  import opened Statements
  import opened ScopeSound
  import opened Analysis
  import opened FixedPoint

  /** The maps of the manager as one value. */
  datatype Records = Records(factsIn: FactMap, factsOut: FactMap, visited: set<nat>, stmEffect: map<nat, Effect>, cfgEdges: seq<Edge>)
  {
    function Marked(id: nat): Records { this.(visited := visited + {id}) }

    function WithEffect(id: nat, eff: Effect): Records { this.(stmEffect := stmEffect[id := eff]) }

    function Effect(id: nat): Effect { EffectAt(stmEffect, id) }
  }

  function EffectAt(m: map<nat, Effect>, id: nat): Effect {
    if id in m then m[id] else NO_EFFECT
  }

  // ---------- one expression ----------

  /** The expression that is visited first, or only. */
  function FirstExpr(x: Stmt): Expr {
    match x
    case ExprStmt(_, e) => e
    case For(_, init, _, _, _, _) => init
    case _ => x.test
  }

  /** From these facts the expression is not allowed in these surroundings. */
  predicate Refuses(e: Expr, fs: FactVec, around: Effect, noWrite: set<Variable>) {
    Visit(e, fs, Context(around, NO_EFFECT, NO_EFFECT, noWrite)).None?
  }

  function FactsAfter(e: Expr, fs: FactVec, around: Effect, noWrite: set<Variable>): FactVec {
    match Visit(e, fs, Context(around, NO_EFFECT, NO_EFFECT, noWrite)) case None => fs case Some((gs, _)) => gs
  }

  function EffectOf(e: Expr, fs: FactVec, around: Effect, noWrite: set<Variable>): Effect {
    match Visit(e, fs, Context(around, NO_EFFECT, NO_EFFECT, noWrite)) case None => NO_EFFECT case Some((_, c)) => c.stm
  }

  /** What has been accumulated before does not matter for any of them. */
  lemma ExprRuns(e: Expr, fs: FactVec, c: Context)
    requires c.stm == NO_EFFECT
    ensures Visit(e, fs, c).None? <==> Refuses(e, fs, c.context, c.noWrite)
    ensures Visit(e, fs, c).Some? ==>
      && Visit(e, fs, c).value.0 == FactsAfter(e, fs, c.context, c.noWrite)
      && Visit(e, fs, c).value.1.stm == EffectOf(e, fs, c.context, c.noWrite)
  {
    VisitAlike(e, fs, c, Context(c.context, NO_EFFECT, NO_EFFECT, c.noWrite));
  }

  // ---------- what is recorded ----------

  /** The facts recorded on exit: jumps leave the locals of the loop body behind. */
  function StoredOut(x: Stmt, out: FactVec, lp: seq<Variable>): FactVec {
    if x.Break? || x.Continue? then OutOfScope(out, lp) else out
  }

  function Storing(r: Records, x: Stmt, fs: FactVec, out: FactVec, lp: seq<Variable>): Records {
    r.(factsIn := r.factsIn[x.id := fs], factsOut := r.factsOut[x.id := StoredOut(x, out, lp)])
  }

  function IfEffect(x: Stmt, eff: Effect, r: Records): Effect
    requires x.If?
  {
    eff.Add(r.Effect(x.thn.id), false).Add(r.Effect(x.els.id), false)
  }

  function ForEffect(x: Stmt, eff: Effect, r: Records): Effect
    requires x.For?
  {
    eff.Add(r.Effect(x.body.id), false)
  }

  function EffectsOf(xs: seq<Stmt>, m: map<nat, Effect>): Effect {
    if xs == [] then NO_EFFECT else EffectsOf(xs[..|xs| - 1], m).Add(EffectAt(m, xs[|xs| - 1].id), false)
  }

  /** The records after a pass over `b` that began with `head` and came to its end with `post`. */
  function PassStored(r: Records, b: Block, head: FactVec, post: FactVec): Records {
    Records(r.factsIn[b.id := head], r.factsOut[b.id := OutOfScope(post, DeclVars(b.locals))], r.visited + {b.id},
            r.stmEffect[b.id := EffectsOf(b.stms, r.stmEffect)], r.cfgEdges)
  }

  /** The recorded in-facts are the same facts, and the statement is no jump. */
  predicate Reusable(x: Stmt, fs: FactVec, r: Records) {
    !x.Break? && !x.Continue? && SameFactsSpec(fs, At(r.factsIn, x.id))
  }

  /** The in-facts with the out-facts of all back edges merged in, once the block has been visited. */
  function Fed(b: Block, fs: FactVec, r: Records): FactVec {
    if b.id in r.visited then MergedSources(fs, Sources(r.cfgEdges, b.id, false, true), r.factsOut) else fs
  }

  /** The search stops here: these in-facts are recorded, and the recorded effect fits. */
  predicate Settled(b: Block, head: FactVec, r: Records, around: Effect, noWrite: set<Variable>) {
    SameFactsSpec(head, At(r.factsIn, b.id)) && Fits(r.Effect(b.id), around, noWrite)
  }

  // ---------- success ----------

  /** The analysis of `x` from `fs` and the records `r` gives `out` and the records `q`. */
  ghost predicate Ran(x: Stmt, lp: seq<Variable>, fs: FactVec, out: FactVec, r: Records, q: Records, around: Effect, noWrite: set<Variable>)
    decreases x, 2
  {
    if Reusable(x, fs, r) then Fits(r.Effect(x.id), around, noWrite) && out == At(r.factsOut, x.id) && q == r
    else exists m :: VisitRan(x, lp, fs, out, r, m, around, noWrite) && q == Storing(m, x, fs, out, lp)
  }

  ghost predicate VisitRan(x: Stmt, lp: seq<Variable>, fs: FactVec, out: FactVec, r: Records, q: Records, around: Effect, noWrite: set<Variable>)
    decreases x, 1
  {
    && !Refuses(FirstExpr(x), fs, around, noWrite)
    && var gs, eff, r1 := FactsAfter(FirstExpr(x), fs, around, noWrite), EffectOf(FirstExpr(x), fs, around, noWrite), r.Marked(x.id);
       match x
       case If(id, _, _, _) =>
         exists o1, o2, r2, r3 :: BothRan(x, lp, gs, o1, o2, r1, r2, r3, around, noWrite)
           && out == MergedAll(o1, o2)
           && q == r3.WithEffect(id, IfEffect(x, eff, r3))
       case For(id, _, iv, _, _, body) =>
         exists o, r2 :: BlockRan(body, [], gs, o, r1, r2, around, noWrite + {iv})
           && out == JumpMergedAll(At(r2.factsIn, body.id), Sources(r2.cfgEdges, id, true, false), r2.factsOut)
           && q == r2.WithEffect(id, ForEffect(x, eff, r2))
       case _ => out == gs && q == r1.WithEffect(x.id, eff)
  }

  /** Both branches of an `if` are analysed from the same facts, one after the other. */
  ghost predicate BothRan(x: Stmt, lp: seq<Variable>, gs: FactVec, o1: FactVec, o2: FactVec, r1: Records, r2: Records, r3: Records, around: Effect, noWrite: set<Variable>)
    requires x.If?
    decreases x, 0
  {
    BlockRan(x.thn, lp, gs, o1, r1, r2, around, noWrite) && BlockRan(x.els, lp, gs, o2, r2, r3, around, noWrite)
  }

  ghost predicate BlockRan(b: Block, lp: seq<Variable>, fs: FactVec, out: FactVec, r: Records, q: Records, around: Effect, noWrite: set<Variable>)
    decreases b, 4
  {
    exists m :: SearchRan(b, lp, false, fs, r, m, around, noWrite) && out == At(m.factsOut, b.id) && q == m.Marked(b.id)
  }

  /** The search has settled; with `once`, not before a pass has been made. */
  ghost predicate SearchRan(b: Block, lp: seq<Variable>, once: bool, fs: FactVec, r: Records, q: Records, around: Effect, noWrite: set<Variable>)
    decreases b, 3
  {
    exists heads, rs :: Rounds(b, lp, once, fs, heads, rs, r, around, noWrite) && rs[|rs| - 1] == q
      && !(once && |rs| == 1) && Settled(b, heads[|rs| - 1], q, around, noWrite)
  }

  /** Passes that did not settle: `heads` are the in-facts before each, `rs` the records. */
  ghost predicate Rounds(b: Block, lp: seq<Variable>, once: bool, fs: FactVec, heads: seq<FactVec>, rs: seq<Records>, r: Records, around: Effect, noWrite: set<Variable>)
    decreases b, 2
  {
    && |heads| == |rs| > 0 && rs[0] == r && heads[0] == Fed(b, fs, r)
    && forall k :: 0 <= k < |rs| - 1 ==> NextRound(b, lp, once && k == 0, heads[k], heads[k + 1], rs[k], rs[k + 1], around, noWrite)
  }

  ghost predicate NextRound(b: Block, lp: seq<Variable>, forced: bool, head: FactVec, head': FactVec, r: Records, r': Records, around: Effect, noWrite: set<Variable>)
    decreases b, 1
  {
    && (forced || !Settled(b, head, r, around, noWrite))
    && PassRan(b, lp, head, r, r', around, noWrite) && head' == Fed(b, head, r')
  }

  ghost predicate PassRan(b: Block, lp: seq<Variable>, head: FactVec, r: Records, q: Records, around: Effect, noWrite: set<Variable>)
    decreases b, 0, 1
  {
    exists trail, ms :: Through(b, lp, head, trail, ms, r, around, noWrite) && |ms| == |b.stms| + 1
      && q == PassStored(ms[|b.stms|], b, head, trail[|b.stms|])
  }

  /** The facts and the records before and after each of the first statements of `b`. */
  ghost predicate Through(b: Block, lp: seq<Variable>, head: FactVec, trail: seq<FactVec>, ms: seq<Records>, r: Records, around: Effect, noWrite: set<Variable>)
    decreases b, 0, 0
  {
    && |trail| == |ms| && 1 <= |ms| <= |b.stms| + 1 && trail[0] == AddedLocals(head, b.locals) && ms[0] == r
    && forall k :: 0 <= k < |ms| - 1 ==>
         Ran(b.stms[k], DeclVars(b.locals) + lp, trail[k], trail[k + 1], ms[k], ms[k + 1], around, noWrite)
  }

  // ---------- failure ----------

  /** The analysis of `x` from `fs` and the records `r` fails and leaves the records `q`: a record that
      could be reused has an effect that clashes with the surroundings, an expression is refused, or
      a statement inside fails. */
  ghost predicate Failed(x: Stmt, lp: seq<Variable>, fs: FactVec, r: Records, q: Records, around: Effect, noWrite: set<Variable>)
    decreases x, 2
  {
    if Reusable(x, fs, r) then !Fits(r.Effect(x.id), around, noWrite) && q == r
    else VisitFailed(x, lp, fs, r, q, around, noWrite)
  }

  ghost predicate VisitFailed(x: Stmt, lp: seq<Variable>, fs: FactVec, r: Records, q: Records, around: Effect, noWrite: set<Variable>)
    decreases x, 1
  {
    var gs, r1 := FactsAfter(FirstExpr(x), fs, around, noWrite), r.Marked(x.id);
    if Refuses(FirstExpr(x), fs, around, noWrite) then q == r1
    else match x
      case If(_, _, _, _) => BothFailed(x, lp, gs, r1, q, around, noWrite)
      case For(_, _, iv, _, _, body) => BlockFailed(body, [], gs, r1, q, around, noWrite + {iv})
      case _ => false
  }

  /** The first branch of an `if` fails, or the second one after it. */
  ghost predicate BothFailed(x: Stmt, lp: seq<Variable>, gs: FactVec, r1: Records, q: Records, around: Effect, noWrite: set<Variable>)
    requires x.If?
    decreases x, 0
  {
    || BlockFailed(x.thn, lp, gs, r1, q, around, noWrite)
    || exists o1, r2 :: BlockRan(x.thn, lp, gs, o1, r1, r2, around, noWrite) && BlockFailed(x.els, lp, gs, r2, q, around, noWrite)
  }

  ghost predicate BlockFailed(b: Block, lp: seq<Variable>, fs: FactVec, r: Records, q: Records, around: Effect, noWrite: set<Variable>)
    decreases b, 5
  {
    exists i :: SearchFailed(b, lp, false, i, fs, r, q, around, noWrite)
  }

  /** After some passes that did not settle, the next one fails at statement `i`. */
  ghost predicate SearchFailed(b: Block, lp: seq<Variable>, once: bool, i: nat, fs: FactVec, r: Records, q: Records, around: Effect, noWrite: set<Variable>)
    decreases b, 4
  {
    exists heads, rs :: Rounds(b, lp, once, fs, heads, rs, r, around, noWrite)
      && RoundFailed(b, lp, once && |rs| == 1, i, heads[|rs| - 1], rs[|rs| - 1], q, around, noWrite)
  }

  ghost predicate RoundFailed(b: Block, lp: seq<Variable>, forced: bool, i: nat, head: FactVec, r: Records, q: Records, around: Effect, noWrite: set<Variable>)
    decreases b, 3
  {
    (forced || !Settled(b, head, r, around, noWrite)) && PassFailed(b, lp, i, head, r, q, around, noWrite)
  }

  ghost predicate PassFailed(b: Block, lp: seq<Variable>, i: nat, head: FactVec, r: Records, q: Records, around: Effect, noWrite: set<Variable>)
    decreases b, 2
  {
    && i < |b.stms|
    && exists trail, ms :: Through(b, lp, head, trail, ms, r, around, noWrite) && |ms| == i + 1
         && Failed(b.stms[i], DeclVars(b.locals) + lp, trail[i], ms[i], q, around, noWrite)
  }

  // ---------- putting visits together ----------

  /** Marking a statement as visited first changes nothing. */
  lemma MarkedFirst(x: Stmt, lp: seq<Variable>, fs: FactVec, out: FactVec, r: Records, q: Records, around: Effect, noWrite: set<Variable>)
    ensures VisitRan(x, lp, fs, out, r.Marked(x.id), q, around, noWrite) <==> VisitRan(x, lp, fs, out, r, q, around, noWrite)
    ensures VisitFailed(x, lp, fs, r.Marked(x.id), q, around, noWrite) <==> VisitFailed(x, lp, fs, r, q, around, noWrite)
  {
    assert r.Marked(x.id).Marked(x.id) == r.Marked(x.id);
  }

  /** The two branches of an `if` that has been visited. */
  lemma IfTaken(x: Stmt, lp: seq<Variable>, fs: FactVec, out: FactVec, r: Records, q: Records, around: Effect, noWrite: set<Variable>)
    returns (o1: FactVec, o2: FactVec, r2: Records, r3: Records)
    requires x.If? && VisitRan(x, lp, fs, out, r, q, around, noWrite)
    ensures BothRan(x, lp, FactsAfter(x.test, fs, around, noWrite), o1, o2, r.Marked(x.id), r2, r3, around, noWrite)
    ensures out == MergedAll(o1, o2) && q == r3.WithEffect(x.id, IfEffect(x, EffectOf(x.test, fs, around, noWrite), r3))
  {
    var eff := EffectOf(FirstExpr(x), fs, around, noWrite);
    o1, o2, r2, r3 :| BothRan(x, lp, FactsAfter(FirstExpr(x), fs, around, noWrite), o1, o2, r.Marked(x.id), r2, r3, around, noWrite)
      && out == MergedAll(o1, o2) && q == r3.WithEffect(x.id, IfEffect(x, eff, r3));
  }

  /** The body of a `for` that has been visited. */
  lemma ForTaken(x: Stmt, lp: seq<Variable>, fs: FactVec, out: FactVec, r: Records, q: Records, around: Effect, noWrite: set<Variable>)
    returns (o: FactVec, r2: Records)
    requires x.For? && VisitRan(x, lp, fs, out, r, q, around, noWrite)
    ensures BlockRan(x.body, [], FactsAfter(x.init, fs, around, noWrite), o, r.Marked(x.id), r2, around, noWrite + {x.iv})
    ensures out == JumpMergedAll(At(r2.factsIn, x.body.id), Sources(r2.cfgEdges, x.id, true, false), r2.factsOut)
    ensures q == r2.WithEffect(x.id, ForEffect(x, EffectOf(x.init, fs, around, noWrite), r2))
  {
    var eff := EffectOf(FirstExpr(x), fs, around, noWrite);
    o, r2 :| BlockRan(x.body, [], FactsAfter(FirstExpr(x), fs, around, noWrite), o, r.Marked(x.id), r2, around, noWrite + {x.iv})
      && out == JumpMergedAll(At(r2.factsIn, x.body.id), Sources(r2.cfgEdges, x.id, true, false), r2.factsOut)
      && q == r2.WithEffect(x.id, ForEffect(x, eff, r2));
  }

  /** The rounds of a search that has settled. */
  lemma SearchTaken(b: Block, lp: seq<Variable>, once: bool, fs: FactVec, r: Records, q: Records, around: Effect, noWrite: set<Variable>)
    returns (heads: seq<FactVec>, rs: seq<Records>)
    requires SearchRan(b, lp, once, fs, r, q, around, noWrite)
    ensures Rounds(b, lp, once, fs, heads, rs, r, around, noWrite) && rs[|rs| - 1] == q
    ensures !(once && |rs| == 1) && Settled(b, heads[|rs| - 1], q, around, noWrite)
  {
    heads, rs :| Rounds(b, lp, once, fs, heads, rs, r, around, noWrite) && rs[|rs| - 1] == q
      && !(once && |rs| == 1) && Settled(b, heads[|rs| - 1], q, around, noWrite);
  }

  lemma RanByVisit(x: Stmt, lp: seq<Variable>, fs: FactVec, out: FactVec, r: Records, m: Records, around: Effect, noWrite: set<Variable>)
    requires !Reusable(x, fs, r) && VisitRan(x, lp, fs, out, r, m, around, noWrite)
    ensures Ran(x, lp, fs, out, r, Storing(m, x, fs, out, lp), around, noWrite)
  {}

  lemma RefusedFails(x: Stmt, lp: seq<Variable>, fs: FactVec, r: Records, around: Effect, noWrite: set<Variable>)
    requires Refuses(FirstExpr(x), fs, around, noWrite) && x.id in r.visited
    ensures VisitFailed(x, lp, fs, r, r, around, noWrite)
  {
    assert r.Marked(x.id) == r;
  }

  lemma InsideFails(x: Stmt, lp: seq<Variable>, fs: FactVec, r: Records, q: Records, around: Effect, noWrite: set<Variable>)
    requires (x.If? || x.For?) && x.id in r.visited && !Refuses(FirstExpr(x), fs, around, noWrite)
    requires var gs := FactsAfter(FirstExpr(x), fs, around, noWrite);
      if x.If? then BothFailed(x, lp, gs, r, q, around, noWrite) else BlockFailed(x.body, [], gs, r, q, around, noWrite + {x.iv})
    ensures VisitFailed(x, lp, fs, r, q, around, noWrite)
  {
    assert r.Marked(x.id) == r;
  }

  // ---------- one result ----------

  /** A successful analysis has one result. */
  lemma {:induction false} RanOnce(x: Stmt, lp: seq<Variable>, fs: FactVec, r: Records, around: Effect, noWrite: set<Variable>, o1: FactVec, q1: Records, o2: FactVec, q2: Records)
    requires Ran(x, lp, fs, o1, r, q1, around, noWrite) && Ran(x, lp, fs, o2, r, q2, around, noWrite)
    ensures o1 == o2 && q1 == q2
    decreases x, 2
  {
    if !Reusable(x, fs, r) {
      var m1 :| VisitRan(x, lp, fs, o1, r, m1, around, noWrite) && q1 == Storing(m1, x, fs, o1, lp);
      var m2 :| VisitRan(x, lp, fs, o2, r, m2, around, noWrite) && q2 == Storing(m2, x, fs, o2, lp);
      VisitRanOnce(x, lp, fs, r, around, noWrite, o1, m1, o2, m2);
    }
  }

  lemma {:induction false} VisitRanOnce(x: Stmt, lp: seq<Variable>, fs: FactVec, r: Records, around: Effect, noWrite: set<Variable>, o1: FactVec, q1: Records, o2: FactVec, q2: Records)
    requires VisitRan(x, lp, fs, o1, r, q1, around, noWrite) && VisitRan(x, lp, fs, o2, r, q2, around, noWrite)
    ensures o1 == o2 && q1 == q2
    decreases x, 1
  {
    var gs, r1 := FactsAfter(FirstExpr(x), fs, around, noWrite), r.Marked(x.id);
    match x
    case If(_, _, thn, els) =>
      var eff := EffectOf(FirstExpr(x), fs, around, noWrite);
      var t1, e1, m1, n1 :| BothRan(x, lp, gs, t1, e1, r1, m1, n1, around, noWrite) && o1 == MergedAll(t1, e1)
        && q1 == n1.WithEffect(x.id, IfEffect(x, eff, n1));
      var t2, e2, m2, n2 :| BothRan(x, lp, gs, t2, e2, r1, m2, n2, around, noWrite) && o2 == MergedAll(t2, e2)
        && q2 == n2.WithEffect(x.id, IfEffect(x, eff, n2));
      BothRanOnce(x, lp, gs, r1, around, noWrite, t1, e1, m1, n1, t2, e2, m2, n2);
    case For(_, _, iv, _, _, body) =>
      var eff := EffectOf(FirstExpr(x), fs, around, noWrite);
      var b1, m1 :| BlockRan(body, [], gs, b1, r1, m1, around, noWrite + {iv})
        && o1 == JumpMergedAll(At(m1.factsIn, body.id), Sources(m1.cfgEdges, x.id, true, false), m1.factsOut)
        && q1 == m1.WithEffect(x.id, ForEffect(x, eff, m1));
      var b2, m2 :| BlockRan(body, [], gs, b2, r1, m2, around, noWrite + {iv})
        && o2 == JumpMergedAll(At(m2.factsIn, body.id), Sources(m2.cfgEdges, x.id, true, false), m2.factsOut)
        && q2 == m2.WithEffect(x.id, ForEffect(x, eff, m2));
      BlockRanOnce(body, [], gs, r1, around, noWrite + {iv}, b1, m1, b2, m2);
    case _ =>
  }

  lemma {:induction false} BothRanOnce(x: Stmt, lp: seq<Variable>, gs: FactVec, r1: Records, around: Effect, noWrite: set<Variable>,
                                       t1: FactVec, e1: FactVec, m1: Records, n1: Records, t2: FactVec, e2: FactVec, m2: Records, n2: Records)
    requires x.If? && BothRan(x, lp, gs, t1, e1, r1, m1, n1, around, noWrite) && BothRan(x, lp, gs, t2, e2, r1, m2, n2, around, noWrite)
    ensures t1 == t2 && e1 == e2 && m1 == m2 && n1 == n2
    decreases x, 0
  {
    BlockRanOnce(x.thn, lp, gs, r1, around, noWrite, t1, m1, t2, m2);
    BlockRanOnce(x.els, lp, gs, m1, around, noWrite, e1, n1, e2, n2);
  }

  lemma {:induction false} BlockRanOnce(b: Block, lp: seq<Variable>, fs: FactVec, r: Records, around: Effect, noWrite: set<Variable>, o1: FactVec, q1: Records, o2: FactVec, q2: Records)
    requires BlockRan(b, lp, fs, o1, r, q1, around, noWrite) && BlockRan(b, lp, fs, o2, r, q2, around, noWrite)
    ensures o1 == o2 && q1 == q2
    decreases b, 4
  {
    var m1 :| SearchRan(b, lp, false, fs, r, m1, around, noWrite) && o1 == At(m1.factsOut, b.id) && q1 == m1.Marked(b.id);
    var m2 :| SearchRan(b, lp, false, fs, r, m2, around, noWrite) && o2 == At(m2.factsOut, b.id) && q2 == m2.Marked(b.id);
    SearchRanOnce(b, lp, false, fs, r, around, noWrite, m1, m2);
  }

  lemma {:induction false} SearchRanOnce(b: Block, lp: seq<Variable>, once: bool, fs: FactVec, r: Records, around: Effect, noWrite: set<Variable>, q1: Records, q2: Records)
    requires SearchRan(b, lp, once, fs, r, q1, around, noWrite) && SearchRan(b, lp, once, fs, r, q2, around, noWrite)
    ensures q1 == q2
    decreases b, 3
  {
    var h1, s1 :| Rounds(b, lp, once, fs, h1, s1, r, around, noWrite) && s1[|s1| - 1] == q1
      && !(once && |s1| == 1) && Settled(b, h1[|s1| - 1], q1, around, noWrite);
    var h2, s2 :| Rounds(b, lp, once, fs, h2, s2, r, around, noWrite) && s2[|s2| - 1] == q2
      && !(once && |s2| == 1) && Settled(b, h2[|s2| - 1], q2, around, noWrite);
    NoLonger(b, lp, once, fs, r, around, noWrite, h1, s1, h2, s2);
    NoLonger(b, lp, once, fs, r, around, noWrite, h2, s2, h1, s1);
    RoundsOnce(b, lp, once, fs, r, around, noWrite, h1, s1, h2, s2, |s1| - 1);
  }

  /** No rounds go on where others have settled. */
  lemma {:induction false} NoLonger(b: Block, lp: seq<Variable>, once: bool, fs: FactVec, r: Records, around: Effect, noWrite: set<Variable>,
                                    h1: seq<FactVec>, s1: seq<Records>, h2: seq<FactVec>, s2: seq<Records>)
    requires Rounds(b, lp, once, fs, h1, s1, r, around, noWrite) && Rounds(b, lp, once, fs, h2, s2, r, around, noWrite)
    requires !(once && |s1| == 1) && Settled(b, h1[|s1| - 1], s1[|s1| - 1], around, noWrite)
    ensures |s2| <= |s1|
    decreases b, 2, |s1|
  {
    var n := |s1| - 1;
    if n < |s2| {
      RoundsOnce(b, lp, once, fs, r, around, noWrite, h1, s1, h2, s2, n);
      assert n < |s2| - 1 ==> NextRound(b, lp, once && n == 0, h2[n], h2[n + 1], s2[n], s2[n + 1], around, noWrite);
    }
  }

  lemma {:induction false} RoundsOnce(b: Block, lp: seq<Variable>, once: bool, fs: FactVec, r: Records, around: Effect, noWrite: set<Variable>,
                                      h1: seq<FactVec>, s1: seq<Records>, h2: seq<FactVec>, s2: seq<Records>, k: nat)
    requires Rounds(b, lp, once, fs, h1, s1, r, around, noWrite) && Rounds(b, lp, once, fs, h2, s2, r, around, noWrite)
    requires k < |s1| && k < |s2|
    ensures h1[k] == h2[k] && s1[k] == s2[k]
    decreases b, 2, k
  {
    if k > 0 {
      RoundsOnce(b, lp, once, fs, r, around, noWrite, h1, s1, h2, s2, k - 1);
      var j := k - 1;
      assert NextRound(b, lp, once && j == 0, h1[j], h1[j + 1], s1[j], s1[j + 1], around, noWrite);
      assert NextRound(b, lp, once && j == 0, h2[j], h2[j + 1], s2[j], s2[j + 1], around, noWrite);
      PassRanOnce(b, lp, h1[j], s1[j], around, noWrite, s1[k], s2[k]);
    }
  }

  lemma {:induction false} PassRanOnce(b: Block, lp: seq<Variable>, head: FactVec, r: Records, around: Effect, noWrite: set<Variable>, q1: Records, q2: Records)
    requires PassRan(b, lp, head, r, q1, around, noWrite) && PassRan(b, lp, head, r, q2, around, noWrite)
    ensures q1 == q2
    decreases b, 1
  {
    var n := |b.stms|;
    var t1, m1 :| Through(b, lp, head, t1, m1, r, around, noWrite) && |m1| == n + 1 && q1 == PassStored(m1[n], b, head, t1[n]);
    var t2, m2 :| Through(b, lp, head, t2, m2, r, around, noWrite) && |m2| == n + 1 && q2 == PassStored(m2[n], b, head, t2[n]);
    ThroughOnce(b, lp, head, r, around, noWrite, t1, m1, t2, m2, n);
  }

  lemma {:induction false} ThroughOnce(b: Block, lp: seq<Variable>, head: FactVec, r: Records, around: Effect, noWrite: set<Variable>,
                                       t1: seq<FactVec>, m1: seq<Records>, t2: seq<FactVec>, m2: seq<Records>, k: nat)
    requires Through(b, lp, head, t1, m1, r, around, noWrite) && Through(b, lp, head, t2, m2, r, around, noWrite)
    requires k < |m1| && k < |m2|
    ensures t1[k] == t2[k] && m1[k] == m2[k]
    decreases b, 0, k
  {
    if k > 0 {
      ThroughOnce(b, lp, head, r, around, noWrite, t1, m1, t2, m2, k - 1);
      var j := k - 1;
      assert Ran(b.stms[j], DeclVars(b.locals) + lp, t1[j], t1[j + 1], m1[j], m1[j + 1], around, noWrite);
      assert Ran(b.stms[j], DeclVars(b.locals) + lp, t2[j], t2[j + 1], m2[j], m2[j + 1], around, noWrite);
      RanOnce(b.stms[j], DeclVars(b.locals) + lp, t1[j], m1[j], around, noWrite, t1[k], m1[k], t2[k], m2[k]);
    }
  }

  // ---------- not both ----------

  /** An analysis that can succeed cannot fail. */
  lemma {:induction false} RanNotFailed(x: Stmt, lp: seq<Variable>, fs: FactVec, r: Records, around: Effect, noWrite: set<Variable>, o: FactVec, q: Records, f: Records)
    requires Ran(x, lp, fs, o, r, q, around, noWrite)
    ensures !Failed(x, lp, fs, r, f, around, noWrite)
    decreases x, 1
  {
    if !Reusable(x, fs, r) {
      var m :| VisitRan(x, lp, fs, o, r, m, around, noWrite) && q == Storing(m, x, fs, o, lp);
      VisitRanNotFailed(x, lp, fs, r, around, noWrite, o, m, f);
    }
  }

  lemma {:induction false} VisitRanNotFailed(x: Stmt, lp: seq<Variable>, fs: FactVec, r: Records, around: Effect, noWrite: set<Variable>, o: FactVec, q: Records, f: Records)
    requires VisitRan(x, lp, fs, o, r, q, around, noWrite)
    ensures !VisitFailed(x, lp, fs, r, f, around, noWrite)
    decreases x, 0
  {
    var gs, r1 := FactsAfter(FirstExpr(x), fs, around, noWrite), r.Marked(x.id);
    match x
    case If(_, _, thn, els) =>
      var o1, o2, r2, r3 :| BothRan(x, lp, gs, o1, o2, r1, r2, r3, around, noWrite);
      BlockRanNotFailed(thn, lp, gs, r1, around, noWrite, o1, r2, f);
      BlockRanNotFailed(els, lp, gs, r2, around, noWrite, o2, r3, f);
      forall o1', r2' | BlockRan(thn, lp, gs, o1', r1, r2', around, noWrite) ensures r2' == r2 {
        BlockRanOnce(thn, lp, gs, r1, around, noWrite, o1, r2, o1', r2');
      }
    case For(_, _, iv, _, _, body) =>
      var o1, r2 :| BlockRan(body, [], gs, o1, r1, r2, around, noWrite + {iv});
      BlockRanNotFailed(body, [], gs, r1, around, noWrite + {iv}, o1, r2, f);
    case _ =>
  }

  lemma {:induction false} BlockRanNotFailed(b: Block, lp: seq<Variable>, fs: FactVec, r: Records, around: Effect, noWrite: set<Variable>, o: FactVec, q: Records, f: Records)
    requires BlockRan(b, lp, fs, o, r, q, around, noWrite)
    ensures !BlockFailed(b, lp, fs, r, f, around, noWrite)
    decreases b, 4
  {
    var m :| SearchRan(b, lp, false, fs, r, m, around, noWrite) && o == At(m.factsOut, b.id) && q == m.Marked(b.id);
    forall i: nat ensures !SearchFailed(b, lp, false, i, fs, r, f, around, noWrite) {
      SearchRanNotFailed(b, lp, false, i, fs, r, around, noWrite, m, f);
    }
  }

  lemma {:induction false} SearchRanNotFailed(b: Block, lp: seq<Variable>, once: bool, i: nat, fs: FactVec, r: Records, around: Effect, noWrite: set<Variable>, q: Records, f: Records)
    requires SearchRan(b, lp, once, fs, r, q, around, noWrite)
    ensures !SearchFailed(b, lp, once, i, fs, r, f, around, noWrite)
    decreases b, 3
  {
    var h1, s1 :| Rounds(b, lp, once, fs, h1, s1, r, around, noWrite) && s1[|s1| - 1] == q
      && !(once && |s1| == 1) && Settled(b, h1[|s1| - 1], q, around, noWrite);
    forall h2, s2 | Rounds(b, lp, once, fs, h2, s2, r, around, noWrite)
      ensures !RoundFailed(b, lp, once && |s2| == 1, i, h2[|s2| - 1], s2[|s2| - 1], f, around, noWrite)
    {
      RoundNotFailed(b, lp, once, i, fs, r, around, noWrite, h1, s1, h2, s2, f);
    }
  }

  lemma {:induction false} RoundNotFailed(b: Block, lp: seq<Variable>, once: bool, i: nat, fs: FactVec, r: Records, around: Effect, noWrite: set<Variable>,
                                          h1: seq<FactVec>, s1: seq<Records>, h2: seq<FactVec>, s2: seq<Records>, f: Records)
    requires Rounds(b, lp, once, fs, h1, s1, r, around, noWrite) && Rounds(b, lp, once, fs, h2, s2, r, around, noWrite)
    requires !(once && |s1| == 1) && Settled(b, h1[|s1| - 1], s1[|s1| - 1], around, noWrite)
    ensures !RoundFailed(b, lp, once && |s2| == 1, i, h2[|s2| - 1], s2[|s2| - 1], f, around, noWrite)
    decreases b, 2
  {
    var n := |s2| - 1;
    NoLonger(b, lp, once, fs, r, around, noWrite, h1, s1, h2, s2);
    if n < |s1| - 1 {
      RoundsOnce(b, lp, once, fs, r, around, noWrite, h1, s1, h2, s2, n);
      assert NextRound(b, lp, once && n == 0, h1[n], h1[n + 1], s1[n], s1[n + 1], around, noWrite);
      PassNotFailed(b, lp, i, h1[n], s1[n], around, noWrite, s1[n + 1], f);
    } else {
      RoundsOnce(b, lp, once, fs, r, around, noWrite, h1, s1, h2, s2, n);
    }
  }

  lemma {:induction false} PassNotFailed(b: Block, lp: seq<Variable>, i: nat, head: FactVec, r: Records, around: Effect, noWrite: set<Variable>, q: Records, f: Records)
    requires PassRan(b, lp, head, r, q, around, noWrite)
    ensures !PassFailed(b, lp, i, head, r, f, around, noWrite)
    decreases b, 1
  {
    var n := |b.stms|;
    var t1, m1 :| Through(b, lp, head, t1, m1, r, around, noWrite) && |m1| == n + 1 && q == PassStored(m1[n], b, head, t1[n]);
    if i < n {
      forall t2, m2 | Through(b, lp, head, t2, m2, r, around, noWrite) && |m2| == i + 1
        ensures !Failed(b.stms[i], DeclVars(b.locals) + lp, t2[i], m2[i], f, around, noWrite)
      {
        ThroughOnce(b, lp, head, r, around, noWrite, t1, m1, t2, m2, i);
        assert Ran(b.stms[i], DeclVars(b.locals) + lp, t1[i], t1[i + 1], m1[i], m1[i + 1], around, noWrite);
        RanNotFailed(b.stms[i], DeclVars(b.locals) + lp, t1[i], m1[i], around, noWrite, t1[i + 1], m1[i + 1], f);
      }
    }
  }

  // ---------- one way to fail ----------

  /** A failing analysis leaves the same records whenever it fails from the same ones. */
  lemma {:induction false} FailedOnce(x: Stmt, lp: seq<Variable>, fs: FactVec, r: Records, around: Effect, noWrite: set<Variable>, q1: Records, q2: Records)
    requires Failed(x, lp, fs, r, q1, around, noWrite) && Failed(x, lp, fs, r, q2, around, noWrite)
    ensures q1 == q2
    decreases x, 2
  {
    if !Reusable(x, fs, r) { VisitFailedOnce(x, lp, fs, r, around, noWrite, q1, q2); }
  }

  lemma {:induction false} VisitFailedOnce(x: Stmt, lp: seq<Variable>, fs: FactVec, r: Records, around: Effect, noWrite: set<Variable>, q1: Records, q2: Records)
    requires VisitFailed(x, lp, fs, r, q1, around, noWrite) && VisitFailed(x, lp, fs, r, q2, around, noWrite)
    ensures q1 == q2
    decreases x, 1
  {
    if !Refuses(FirstExpr(x), fs, around, noWrite) {
      var gs, r1 := FactsAfter(FirstExpr(x), fs, around, noWrite), r.Marked(x.id);
      match x
      case If(_, _, _, _) => BothFailedOnce(x, lp, gs, r1, around, noWrite, q1, q2);
      case For(_, _, iv, _, _, body) => BlockFailedOnce(body, [], gs, r1, around, noWrite + {iv}, q1, q2);
      case _ =>
    }
  }

  lemma {:induction false} BothFailedOnce(x: Stmt, lp: seq<Variable>, gs: FactVec, r1: Records, around: Effect, noWrite: set<Variable>, q1: Records, q2: Records)
    requires x.If? && BothFailed(x, lp, gs, r1, q1, around, noWrite) && BothFailed(x, lp, gs, r1, q2, around, noWrite)
    ensures q1 == q2
    decreases x, 0
  {
    if o, m :| BlockRan(x.thn, lp, gs, o, r1, m, around, noWrite) {
      BlockRanNotFailed(x.thn, lp, gs, r1, around, noWrite, o, m, q1);
      BlockRanNotFailed(x.thn, lp, gs, r1, around, noWrite, o, m, q2);
      forall o', m' | BlockRan(x.thn, lp, gs, o', r1, m', around, noWrite) ensures m' == m {
        BlockRanOnce(x.thn, lp, gs, r1, around, noWrite, o, m, o', m');
      }
      BlockFailedOnce(x.els, lp, gs, m, around, noWrite, q1, q2);
    } else {
      BlockFailedOnce(x.thn, lp, gs, r1, around, noWrite, q1, q2);
    }
  }

  lemma {:induction false} BlockFailedOnce(b: Block, lp: seq<Variable>, fs: FactVec, r: Records, around: Effect, noWrite: set<Variable>, q1: Records, q2: Records)
    requires BlockFailed(b, lp, fs, r, q1, around, noWrite) && BlockFailed(b, lp, fs, r, q2, around, noWrite)
    ensures q1 == q2
    decreases b, 6
  {
    var i1: nat :| SearchFailed(b, lp, false, i1, fs, r, q1, around, noWrite);
    var i2: nat :| SearchFailed(b, lp, false, i2, fs, r, q2, around, noWrite);
    SearchFailedOnce(b, lp, false, fs, r, around, noWrite, i1, q1, i2, q2);
  }

  lemma {:induction false} SearchFailedOnce(b: Block, lp: seq<Variable>, once: bool, fs: FactVec, r: Records, around: Effect, noWrite: set<Variable>, i1: nat, q1: Records, i2: nat, q2: Records)
    requires SearchFailed(b, lp, once, i1, fs, r, q1, around, noWrite) && SearchFailed(b, lp, once, i2, fs, r, q2, around, noWrite)
    ensures i1 == i2 && q1 == q2
    decreases b, 5
  {
    var h1, s1 :| Rounds(b, lp, once, fs, h1, s1, r, around, noWrite)
      && RoundFailed(b, lp, once && |s1| == 1, i1, h1[|s1| - 1], s1[|s1| - 1], q1, around, noWrite);
    var h2, s2 :| Rounds(b, lp, once, fs, h2, s2, r, around, noWrite)
      && RoundFailed(b, lp, once && |s2| == 1, i2, h2[|s2| - 1], s2[|s2| - 1], q2, around, noWrite);
    NotAfterFailure(b, lp, once, fs, r, around, noWrite, i1, q1, h1, s1, h2, s2);
    NotAfterFailure(b, lp, once, fs, r, around, noWrite, i2, q2, h2, s2, h1, s1);
    RoundsOnce(b, lp, once, fs, r, around, noWrite, h1, s1, h2, s2, |s1| - 1);
    PassFailedOnce(b, lp, h1[|s1| - 1], s1[|s1| - 1], around, noWrite, i1, q1, i2, q2);
  }

  /** No rounds go on where others have failed. */
  lemma NotAfterFailure(b: Block, lp: seq<Variable>, once: bool, fs: FactVec, r: Records, around: Effect, noWrite: set<Variable>, i: nat, q: Records,
                                           h1: seq<FactVec>, s1: seq<Records>, h2: seq<FactVec>, s2: seq<Records>)
    requires Rounds(b, lp, once, fs, h1, s1, r, around, noWrite) && Rounds(b, lp, once, fs, h2, s2, r, around, noWrite)
    requires RoundFailed(b, lp, once && |s1| == 1, i, h1[|s1| - 1], s1[|s1| - 1], q, around, noWrite)
    ensures |s2| <= |s1|
    decreases b, 4
  {
    var n := |s1| - 1;
    if n < |s2| - 1 {
      RoundsOnce(b, lp, once, fs, r, around, noWrite, h1, s1, h2, s2, n);
      PassedThere(b, lp, once, fs, r, around, noWrite, i, q, h2, s2, n);
    }
  }

  lemma PassedThere(b: Block, lp: seq<Variable>, once: bool, fs: FactVec, r: Records, around: Effect, noWrite: set<Variable>, i: nat, q: Records,
                                       heads: seq<FactVec>, rs: seq<Records>, n: nat)
    requires Rounds(b, lp, once, fs, heads, rs, r, around, noWrite) && n < |rs| - 1
    ensures !PassFailed(b, lp, i, heads[n], rs[n], q, around, noWrite)
    decreases b, 3
  {
    assert NextRound(b, lp, once && n == 0, heads[n], heads[n + 1], rs[n], rs[n + 1], around, noWrite);
    PassNotFailed(b, lp, i, heads[n], rs[n], around, noWrite, rs[n + 1], q);
  }

  lemma {:induction false} PassFailedOnce(b: Block, lp: seq<Variable>, head: FactVec, r: Records, around: Effect, noWrite: set<Variable>, i1: nat, q1: Records, i2: nat, q2: Records)
    requires PassFailed(b, lp, i1, head, r, q1, around, noWrite) && PassFailed(b, lp, i2, head, r, q2, around, noWrite)
    ensures i1 == i2 && q1 == q2
    decreases b, 4
  {
    var t1, m1 :| Through(b, lp, head, t1, m1, r, around, noWrite) && |m1| == i1 + 1
      && Failed(b.stms[i1], DeclVars(b.locals) + lp, t1[i1], m1[i1], q1, around, noWrite);
    var t2, m2 :| Through(b, lp, head, t2, m2, r, around, noWrite) && |m2| == i2 + 1
      && Failed(b.stms[i2], DeclVars(b.locals) + lp, t2[i2], m2[i2], q2, around, noWrite);
    NotPastFailure(b, lp, head, r, around, noWrite, i1, q1, t1, m1, t2, m2);
    NotPastFailure(b, lp, head, r, around, noWrite, i2, q2, t2, m2, t1, m1);
    ThroughOnce(b, lp, head, r, around, noWrite, t1, m1, t2, m2, i1);
    FailedOnce(b.stms[i1], DeclVars(b.locals) + lp, t1[i1], m1[i1], around, noWrite, q1, q2);
  }

  /** No pass goes on where another one has failed. */
  lemma NotPastFailure(b: Block, lp: seq<Variable>, head: FactVec, r: Records, around: Effect, noWrite: set<Variable>, i: nat, q: Records,
                                          t1: seq<FactVec>, m1: seq<Records>, t2: seq<FactVec>, m2: seq<Records>)
    requires Through(b, lp, head, t1, m1, r, around, noWrite) && Through(b, lp, head, t2, m2, r, around, noWrite)
    requires |m1| == i + 1 && i < |b.stms| && Failed(b.stms[i], DeclVars(b.locals) + lp, t1[i], m1[i], q, around, noWrite)
    ensures |m2| <= |m1|
    decreases b, 3
  {
    if i < |m2| - 1 {
      ThroughOnce(b, lp, head, r, around, noWrite, t1, m1, t2, m2, i);
      RanThere(b, lp, head, r, around, noWrite, i, q, t2, m2);
    }
  }

  lemma RanThere(b: Block, lp: seq<Variable>, head: FactVec, r: Records, around: Effect, noWrite: set<Variable>, i: nat, q: Records,
                                    trail: seq<FactVec>, ms: seq<Records>)
    requires Through(b, lp, head, trail, ms, r, around, noWrite) && i < |ms| - 1
    ensures !Failed(b.stms[i], DeclVars(b.locals) + lp, trail[i], ms[i], q, around, noWrite)
    decreases b, 2
  {
    RanNotFailed(b.stms[i], DeclVars(b.locals) + lp, trail[i], ms[i], around, noWrite, trail[i + 1], ms[i + 1], q);
  }
}
