/** The fact manager: analysis of statements and blocks with memoised in- and out-facts, and the
    fixed-point iteration over the back edges of a loop body. The maps of the manager promise that
    every recorded pair of facts is sound for all runs; every method keeps that promise for the
    program points it touches, and leaves the records of all others alone. */
module FactMgrs {
  import opened Collections
  import opened Variables
  import opened Facts
  import opened PointsTo
  import opened Expressions
  import opened CGContexts
  import opened ExprSound
  import opened OrderIndependence
  import opened Scopes
  import opened Statements
  import opened ScopeSound
  import opened Analysis
  import opened FixedPoint
  import opened AnalysisRuns

  // ---------- control-flow edges ----------

  /** Back edges lead into a loop body from its `continue` statements and, unless control cannot
      fall through, from its own end. Edges past the loop come from its `break` statements. */
  predicate LoopEdges(x: Stmt, edges: seq<Edge>)
    requires x.For?
  {
    var back := ToSet(Sources(edges, x.body.id, false, true));
    && back <= {x.body.id} + SeqJumps(x.body.stms, Continued)
    && SeqJumps(x.body.stms, Continued) <= back
    && (x.body.id in back || x.body.stms == [] || BlockMustJump(x.body))
    && ToSet(Sources(edges, x.id, true, false)) == SeqJumps(x.body.stms, Broke)
  }

  /** The edge list agrees with the program. */
  predicate EdgesOk(x: Stmt, edges: seq<Edge>)
    decreases x
  {
    match x
    case If(_, _, thn, els) =>
      && BlockEdgesOk(thn, edges) && Sources(edges, thn.id, false, true) == []
      && BlockEdgesOk(els, edges) && Sources(edges, els.id, false, true) == []
    case For(_, _, _, _, _, body) => LoopEdges(x, edges) && BlockEdgesOk(body, edges)
    case _ => true
  }

  predicate BlockEdgesOk(b: Block, edges: seq<Edge>)
    decreases b
  {
    && ToSet(Sources(edges, b.id, false, true)) <= {b.id} + SeqJumps(b.stms, Continued)
    && forall i :: 0 <= i < |b.stms| ==> EdgesOk(b.stms[i], edges)
  }

  // ---------- what the maps promise ----------

  ghost predicate RecordSound(x: Stmt, scope: set<Variable>, lp: seq<Variable>, fi: FactMap, fo: FactMap) {
    x.id in fi ==>
      && FactsOk(At(fi, x.id), scope) && FactsOk(At(fo, x.id), scope)
      && StmtSound(x, scope, lp, At(fi, x.id), At(fo, x.id), fo)
  }

  ghost predicate BackClosed(b: Block, scope: set<Variable>, fi: FactMap, fo: FactMap, edges: seq<Edge>) {
    forall id :: id in Sources(edges, b.id, false, true) ==> Below(At(fo, id), At(fi, b.id), scope)
  }

  ghost predicate BlockRecordSound(b: Block, scope: set<Variable>, lp: seq<Variable>, fi: FactMap, fo: FactMap, edges: seq<Edge>) {
    && FactsOk(At(fi, b.id), scope) && FactsOk(At(fo, b.id), scope)
    && BlockSound(b, scope, lp, At(fi, b.id), At(fo, b.id), fo)
    && BackClosed(b, scope, fi, fo, edges)
  }

  /** Every recorded pair of in- and out-facts inside `x` is sound. A `break` or `continue` records
      the facts without the locals of the loop body. */
  ghost predicate Memo(x: Stmt, scope: set<Variable>, lp: seq<Variable>, fi: FactMap, fo: FactMap, edges: seq<Edge>)
    decreases x
  {
    match x
    case ExprStmt(_, _) => RecordSound(x, scope, lp, fi, fo)
    case If(_, _, thn, els) =>
      && RecordSound(x, scope, lp, fi, fo)
      && BlockMemo(thn, scope, lp, fi, fo, edges) && BlockMemo(els, scope, lp, fi, fo, edges)
    case For(_, _, _, _, _, body) =>
      RecordSound(x, scope, lp, fi, fo) && BlockMemo(body, scope, [], fi, fo, edges)
    case Break(id, _) => RecordOk(At(fo, id), scope - CellsOf(lp))
    case Continue(id, _) => RecordOk(At(fo, id), scope - CellsOf(lp))
  }

  ghost predicate BlockMemo(b: Block, scope: set<Variable>, lp: seq<Variable>, fi: FactMap, fo: FactMap, edges: seq<Edge>)
    decreases b
  {
    && RecordOk(At(fo, b.id), scope)
    && (b.id in fi ==> BlockRecordSound(b, scope, lp, fi, fo, edges))
    && InnerMemo(b, scope, lp, fi, fo, edges)
  }

  ghost predicate InnerMemo(b: Block, scope: set<Variable>, lp: seq<Variable>, fi: FactMap, fo: FactMap, edges: seq<Edge>)
    decreases b, 0
  {
    forall i :: 0 <= i < |b.stms| ==> Memo(b.stms[i], scope + LocalCells(b), DeclVars(b.locals) + lp, fi, fo, edges)
  }

  // ---------- frames ----------

  ghost predicate Agree(m: FactMap, m': FactMap, ids: set<nat>) {
    forall id :: id in ids ==> (id in m <==> id in m') && At(m, id) == At(m', id)
  }

  lemma ResultFrame(r: Result, scope: set<Variable>, lp: seq<Variable>, out: FactVec, ex: Exits, fo: FactMap, fo': FactMap)
    requires ResultOk(r, scope, lp, out, ex, fo) && Agree(fo, fo', ex.cont + ex.brk)
    ensures ResultOk(r, scope, lp, out, ex, fo')
  {
    if r.Done? && r.sig == Continued {
      var id :| id in ex.cont && Covers(At(fo, id), Kill(r.st, lp));
      assert Covers(At(fo', id), Kill(r.st, lp));
    }
    if r.Done? && r.sig == Broke {
      var id :| id in ex.brk && Covers(At(fo, id), Kill(r.st, lp));
      assert Covers(At(fo', id), Kill(r.st, lp));
    }
  }

  lemma StmtSoundFrame(x: Stmt, scope: set<Variable>, lp: seq<Variable>, fs: FactVec, out: FactVec, fo: FactMap, fo': FactMap)
    requires StmtSound(x, scope, lp, fs, out, fo) && Agree(fo, fo', Ids(x))
    ensures StmtSound(x, scope, lp, fs, out, fo')
  {
    forall s, n | Start(s, scope, fs) ensures ResultOk(Exec(x, s, n), scope, lp, out, ExitsOf(x), fo') {
      ResultFrame(Exec(x, s, n), scope, lp, out, ExitsOf(x), fo, fo');
    }
  }

  lemma SeqSoundFrame(xs: seq<Stmt>, scope: set<Variable>, lp: seq<Variable>, fs: FactVec, out: FactVec, fo: FactMap, fo': FactMap)
    requires SeqSound(xs, scope, lp, fs, out, fo) && Agree(fo, fo', SeqIds(xs))
    ensures SeqSound(xs, scope, lp, fs, out, fo')
  {
    forall s, n | Start(s, scope, fs) ensures ResultOk(ExecSeq(xs, s, n), scope, lp, out, ExitsOfSeq(xs), fo') {
      ResultFrame(ExecSeq(xs, s, n), scope, lp, out, ExitsOfSeq(xs), fo, fo');
    }
  }

  lemma BlockSoundFrame(b: Block, scope: set<Variable>, lp: seq<Variable>, fs: FactVec, out: FactVec, fo: FactMap, fo': FactMap)
    requires BlockSound(b, scope, lp, fs, out, fo) && Agree(fo, fo', SeqIds(b.stms))
    ensures BlockSound(b, scope, lp, fs, out, fo')
  {
    forall s, n | Start(s, scope, fs) ensures ResultOk(ExecBlock(b, s, n), scope, lp, out, ExitsOfSeq(b.stms), fo') {
      ResultFrame(ExecBlock(b, s, n), scope, lp, out, ExitsOfSeq(b.stms), fo, fo');
    }
  }

  lemma {:induction false} MemoFrame(x: Stmt, scope: set<Variable>, lp: seq<Variable>, fi: FactMap, fo: FactMap, fi': FactMap, fo': FactMap, edges: seq<Edge>)
    requires Memo(x, scope, lp, fi, fo, edges) && EdgesOk(x, edges)
    requires Agree(fi, fi', Ids(x)) && Agree(fo, fo', Ids(x))
    ensures Memo(x, scope, lp, fi', fo', edges)
    decreases x, 1
  {
    assert x.id in Ids(x);
    if !x.Break? && !x.Continue? && x.id in fi {
      StmtSoundFrame(x, scope, lp, At(fi, x.id), At(fo, x.id), fo, fo');
    }
    match x
    case If(_, _, thn, els) =>
      BlockMemoFrame(thn, scope, lp, fi, fo, fi', fo', edges);
      BlockMemoFrame(els, scope, lp, fi, fo, fi', fo', edges);
    case For(_, _, _, _, _, body) =>
      BlockMemoFrame(body, scope, [], fi, fo, fi', fo', edges);
    case _ =>
  }

  lemma {:induction false} BlockMemoFrame(b: Block, scope: set<Variable>, lp: seq<Variable>, fi: FactMap, fo: FactMap, fi': FactMap, fo': FactMap, edges: seq<Edge>)
    requires BlockMemo(b, scope, lp, fi, fo, edges) && BlockEdgesOk(b, edges)
    requires Agree(fi, fi', BlockIds(b)) && Agree(fo, fo', BlockIds(b))
    ensures BlockMemo(b, scope, lp, fi', fo', edges)
    decreases b, 1
  {
    assert b.id in BlockIds(b);
    if b.id in fi { BlockRecordFrame(b, scope, lp, fi, fo, fi', fo', edges); }
    InnerMemoFrame(b, scope, lp, fi, fo, fi', fo', edges);
  }

  lemma {:induction false} InnerMemoFrame(b: Block, scope: set<Variable>, lp: seq<Variable>, fi: FactMap, fo: FactMap, fi': FactMap, fo': FactMap, edges: seq<Edge>)
    requires InnerMemo(b, scope, lp, fi, fo, edges) && BlockEdgesOk(b, edges)
    requires Agree(fi, fi', SeqIds(b.stms)) && Agree(fo, fo', SeqIds(b.stms))
    ensures InnerMemo(b, scope, lp, fi', fo', edges)
    decreases b, 0
  {
    forall i | 0 <= i < |b.stms|
      ensures Memo(b.stms[i], scope + LocalCells(b), DeclVars(b.locals) + lp, fi', fo', edges)
    {
      IdsInSeq(b.stms, i);
      MemoFrame(b.stms[i], scope + LocalCells(b), DeclVars(b.locals) + lp, fi, fo, fi', fo', edges);
    }
  }

  lemma BlockRecordFrame(b: Block, scope: set<Variable>, lp: seq<Variable>, fi: FactMap, fo: FactMap, fi': FactMap, fo': FactMap, edges: seq<Edge>)
    requires BlockRecordSound(b, scope, lp, fi, fo, edges) && BlockEdgesOk(b, edges)
    requires Agree(fi, fi', BlockIds(b)) && Agree(fo, fo', BlockIds(b))
    ensures BlockRecordSound(b, scope, lp, fi', fo', edges)
  {
    assert b.id in BlockIds(b);
    BlockSoundFrame(b, scope, lp, At(fi, b.id), At(fo, b.id), fo, fo');
    forall id | id in Sources(edges, b.id, false, true) ensures Below(At(fo', id), At(fi', b.id), scope) {
      assert id in ToSet(Sources(edges, b.id, false, true));
      assert id in BlockIds(b);
    }
  }

  lemma IdsInSeq(xs: seq<Stmt>, i: nat)
    requires i < |xs|
    ensures Ids(xs[i]) <= SeqIds(xs) && xs[i].id in Ids(xs[i])
  {}

  lemma ScopeGrows(b: Block, scope: set<Variable>)
    requires ScopeOk(scope) && LocalsOk(b, scope)
    ensures ScopeOk(scope + LocalCells(b)) && PtrVars(scope) <= PtrVars(scope + LocalCells(b))
    ensures NoSpecial(DeclVars(b.locals)) && scope + LocalCells(b) - CellsOf(DeclVars(b.locals)) == scope
  {
    LocalsNotSpecial(b, scope);
  }

  // ---------- one visit ----------

  /** What a visit of `x` has established before its own facts are recorded. */
  ghost predicate VisitedOk(x: Stmt, scope: set<Variable>, lp: seq<Variable>, fs: FactVec, out: FactVec, fi: FactMap, fo: FactMap, edges: seq<Edge>) {
    match x
    case ExprStmt(_, _) => StmtSound(x, scope, lp, fs, out, fo)
    case If(_, _, thn, els) =>
      && StmtSound(x, scope, lp, fs, out, fo)
      && BlockMemo(thn, scope, lp, fi, fo, edges) && BlockMemo(els, scope, lp, fi, fo, edges)
    case For(_, _, _, _, _, body) =>
      StmtSound(x, scope, lp, fs, out, fo) && BlockMemo(body, scope, [], fi, fo, edges)
    case _ => forall fo' :: At(fo', x.id) == OutOfScope(out, lp) ==> StmtSound(x, scope, lp, fs, out, fo')
  }

  lemma AfterVisit(x: Stmt, scope: set<Variable>, lp: seq<Variable>, fs: FactVec, out: FactVec, fi: FactMap, fo: FactMap, edges: seq<Edge>)
    requires VisitedOk(x, scope, lp, fs, out, fi, fo, edges) && Distinct(x) && EdgesOk(x, edges)
    requires FactsOk(fs, scope) && FactsOk(out, scope) && ScopeOk(scope) && NoSpecial(lp)
    ensures var fi', fo' := fi[x.id := fs], fo[x.id := StoredOut(x, out, lp)];
      StmtSound(x, scope, lp, fs, out, fo') && Memo(x, scope, lp, fi', fo', edges)
  {
    var fi', fo' := fi[x.id := fs], fo[x.id := StoredOut(x, out, lp)];
    match x
    case ExprStmt(_, _) =>
      JumpFreeFrame(x, scope, lp, fs, out, fo, fo');
    case If(_, _, thn, els) =>
      JumpFreeFrame(x, scope, lp, fs, out, fo, fo');
      BlockMemoFrame(thn, scope, lp, fi, fo, fi', fo', edges);
      BlockMemoFrame(els, scope, lp, fi, fo, fi', fo', edges);
    case For(_, _, _, _, _, body) =>
      JumpFreeFrame(x, scope, lp, fs, out, fo, fo');
      BlockMemoFrame(body, scope, [], fi, fo, fi', fo', edges);
    case _ =>
      assert At(fo', x.id) == OutOfScope(out, lp);
      ExitFacts(out, lp, scope);
  }

  lemma JumpFreeFrame(x: Stmt, scope: set<Variable>, lp: seq<Variable>, fs: FactVec, out: FactVec, fo: FactMap, fo': FactMap)
    requires StmtSound(x, scope, lp, fs, out, fo) && !x.Break? && !x.Continue? && Distinct(x)
    requires Agree(fo, fo', Ids(x) - {x.id})
    ensures StmtSound(x, scope, lp, fs, out, fo')
  {
    forall s, n | Start(s, scope, fs) ensures ResultOk(Exec(x, s, n), scope, lp, out, ExitsOf(x), fo') {
      ResultFrame(Exec(x, s, n), scope, lp, out, ExitsOf(x), fo, fo');
    }
  }

  lemma WeakerStart(x: Stmt, scope: set<Variable>, lp: seq<Variable>, fs: FactVec, gs: FactVec, out: FactVec, fo: FactMap)
    requires StmtSound(x, scope, lp, gs, out, fo) && Below(fs, gs, scope)
    ensures StmtSound(x, scope, lp, fs, out, fo)
  {
    forall s, n | Start(s, scope, fs) ensures ResultOk(Exec(x, s, n), scope, lp, out, ExitsOf(x), fo) {
      assert Start(s, scope, gs);
    }
  }

  lemma WeakerBlockStart(b: Block, scope: set<Variable>, lp: seq<Variable>, fs: FactVec, gs: FactVec, out: FactVec, fo: FactMap)
    requires BlockSound(b, scope, lp, gs, out, fo) && Below(fs, gs, scope)
    ensures BlockSound(b, scope, lp, fs, out, fo)
  {
    forall s, n | Start(s, scope, fs) ensures ResultOk(ExecBlock(b, s, n), scope, lp, out, ExitsOfSeq(b.stms), fo) {
      assert Start(s, scope, gs);
    }
  }

  /** Either a pointer is in scope, or the program points have records already. */
  ghost predicate Ready(ids: set<nat>, scope: set<Variable>, fi: FactMap) {
    PtrVars(scope) != {} || ids <= fi.Keys
  }

  /** Facts that are the recorded ones are so because there is a record, if and only if there is one
      or a pointer is in scope. */
  lemma SameMeansRecorded(fs: FactVec, id: nat, scope: set<Variable>, fi: FactMap)
    requires FactsOk(fs, scope)
    ensures (SameFactsSpec(fs, At(fi, id)) ==> id in fi) <==> Ready({id}, scope, fi)
  {
    assert fs != [] ==> fs[0] in fs && FactScoped(fs[0], scope) && fs[0].v in PtrVars(scope);
    if PtrVars(scope) != {} { FactsNotEmpty(fs, scope); }
  }

  /** Reusing the record of in-facts that are the same facts is sound. */
  lemma ReusedSound(x: Stmt, scope: set<Variable>, lp: seq<Variable>, fs: FactVec, fi: FactMap, fo: FactMap, edges: seq<Edge>)
    requires Memo(x, scope, lp, fi, fo, edges) && !x.Break? && !x.Continue?
    requires FactsOk(fs, scope) && Ready({x.id}, scope, fi) && SameFactsSpec(fs, At(fi, x.id))
    ensures FactsOk(At(fo, x.id), scope) && StmtSound(x, scope, lp, fs, At(fo, x.id), fo)
  {
    SameMeansRecorded(fs, x.id, scope, fi);
    assert RecordSound(x, scope, lp, fi, fo);
    SameFactsBelow(fs, At(fi, x.id), scope);
    WeakerStart(x, scope, lp, fs, At(fi, x.id), At(fo, x.id), fo);
  }

  lemma ClosedLoop(x: Stmt, scope: set<Variable>, fi: FactMap, fo: FactMap, edges: seq<Edge>)
    requires x.For? && LoopEdges(x, edges) && BackClosed(x.body, scope, fi, fo, edges)
    ensures LoopClosed(x, scope, At(fi, x.body.id), At(fo, x.body.id), fo)
  {
    var back := Sources(edges, x.body.id, false, true);
    forall id | id in ToSet(back) ensures Below(At(fo, id), At(fi, x.body.id), scope) { assert id in back; }
  }

  // ---------- the manager ----------

  ghost predicate Outside(m: FactMap, m': FactMap, ids: set<nat>) {
    forall id :: id !in ids ==> (id in m <==> id in m') && At(m, id) == At(m', id)
  }

  ghost predicate EffectsOutside(m: map<nat, Effect>, m': map<nat, Effect>, ids: set<nat>) {
    forall id :: id !in ids ==> EffectAt(m, id) == EffectAt(m', id)
  }

  /** From `r` to `r'` only program points in `ids` got new records, and none was unvisited again. */
  ghost predicate OnlyTouched(r: Records, r': Records, ids: set<nat>) {
    && r'.cfgEdges == r.cfgEdges && r.visited <= r'.visited && r.factsIn.Keys <= r'.factsIn.Keys
    && Outside(r.factsIn, r'.factsIn, ids) && Outside(r.factsOut, r'.factsOut, ids)
    && EffectsOutside(r.stmEffect, r'.stmEffect, ids)
  }

  lemma TouchedStep(r0: Records, r1: Records, r2: Records, ids: set<nat>, ids': set<nat>)
    requires OnlyTouched(r0, r1, ids) && OnlyTouched(r1, r2, ids') && ids' <= ids
    ensures OnlyTouched(r0, r2, ids)
  {}

  ghost predicate HeadOf(b: Block, fs: FactVec, head: FactVec, scope: set<Variable>) {
    FactsOk(head, scope) && Below(fs, head, scope)
  }

  /** What a visit of `x` from `fs` needs. */
  ghost predicate Visitable(x: Stmt, fs: FactVec, scope: set<Variable>, lp: seq<Variable>, inLoop: bool, r: Records) {
    && StmtOk(x, scope, inLoop) && Distinct(x) && EdgesOk(x, r.cfgEdges) && NoSpecial(lp)
    && ScopeOk(scope) && Ready(Ids(x), scope, r.factsIn) && FactsOk(fs, scope)
    && Memo(x, scope, lp, r.factsIn, r.factsOut, r.cfgEdges)
  }

  ghost predicate BlockVisitable(b: Block, fs: FactVec, scope: set<Variable>, lp: seq<Variable>, inLoop: bool, r: Records) {
    && BlockOk(b, scope, inLoop) && BlockDistinct(b) && BlockEdgesOk(b, r.cfgEdges) && NoSpecial(lp)
    && (lp != [] ==> Sources(r.cfgEdges, b.id, false, true) == [])
    && ScopeOk(scope) && Ready(BlockIds(b), scope, r.factsIn) && FactsOk(fs, scope)
    && InnerMemo(b, scope, lp, r.factsIn, r.factsOut, r.cfgEdges) && RecordOk(At(r.factsOut, b.id), scope)
  }

  /** What is recorded inside `b` is sound, and so is its own record for one pass; before the first
      pass it is closed under the back edges, too. */
  ghost predicate BlockStarted(b: Block, scope: set<Variable>, lp: seq<Variable>, r: Records) {
    && InnerMemo(b, scope, lp, r.factsIn, r.factsOut, r.cfgEdges) && RecordOk(At(r.factsOut, b.id), scope)
    && (b.id in r.factsIn ==>
          && FactsOk(At(r.factsIn, b.id), scope) && FactsOk(At(r.factsOut, b.id), scope)
          && BlockSound(b, scope, lp, At(r.factsIn, b.id), At(r.factsOut, b.id), r.factsOut)
          && (b.id !in r.visited ==> BackClosed(b, scope, r.factsIn, r.factsOut, r.cfgEdges)))
  }

  /** What a visit of `x` from `fs` has achieved, before the facts are recorded. */
  ghost predicate VisitSound(x: Stmt, fs: FactVec, out: FactVec, scope: set<Variable>, lp: seq<Variable>, r: Records, around: Effect, noWrite: set<Variable>) {
    && FactsOk(out, scope) && VisitedOk(x, scope, lp, fs, out, r.factsIn, r.factsOut, r.cfgEdges)
    && Fits(r.Effect(x.id), around, noWrite)
  }

  ghost predicate StmtVisited(x: Stmt, fs: FactVec, ok: bool, out: FactVec, scope: set<Variable>, lp: seq<Variable>, r0: Records, r: Records, around: Effect, noWrite: set<Variable>) {
    && OnlyTouched(r0, r, Ids(x))
    && if ok then VisitSound(x, fs, out, scope, lp, r, around, noWrite) && VisitRan(x, lp, fs, out, r0, r, around, noWrite)
       else VisitFailed(x, lp, fs, r0, r, around, noWrite)
  }

  /** What the analysis of `x` from `fs` has done: on success every run from a store that `fs` cover is
      accounted for, all records inside `x` are sound, and the recorded effect fits the surroundings.
      Either way the result is the one that `AnalysisRuns` describes. */
  ghost predicate StmtAnalysed(x: Stmt, fs: FactVec, ok: bool, out: FactVec, scope: set<Variable>, lp: seq<Variable>, r0: Records, r: Records, around: Effect, noWrite: set<Variable>) {
    && OnlyTouched(r0, r, Ids(x))
    && if ok then
         && FactsOk(out, scope) && StmtSound(x, scope, lp, fs, out, r.factsOut)
         && Memo(x, scope, lp, r.factsIn, r.factsOut, r.cfgEdges)
         && Ran(x, lp, fs, out, r0, r, around, noWrite) && Fits(r.Effect(x.id), around, noWrite)
       else
         Failed(x, lp, fs, r0, r, around, noWrite)
  }

  ghost predicate BlockAnalysed(b: Block, fs: FactVec, ok: bool, out: FactVec, scope: set<Variable>, lp: seq<Variable>, r0: Records, r: Records, around: Effect, noWrite: set<Variable>) {
    && OnlyTouched(r0, r, BlockIds(b))
    && if ok then BlockDone(b, fs, out, scope, lp, r, around, noWrite) && BlockRan(b, lp, fs, out, r0, r, around, noWrite)
       else BlockFailed(b, lp, fs, r0, r, around, noWrite)
  }

  ghost predicate BlockDone(b: Block, fs: FactVec, out: FactVec, scope: set<Variable>, lp: seq<Variable>, r: Records, around: Effect, noWrite: set<Variable>) {
    && b.id in r.factsIn && BlockMemo(b, scope, lp, r.factsIn, r.factsOut, r.cfgEdges)
    && out == At(r.factsOut, b.id) && Below(fs, At(r.factsIn, b.id), scope)
    && BlockSound(b, scope, lp, fs, out, r.factsOut) && Fits(EffectAt(r.stmEffect, b.id), around, noWrite)
  }

  /** From the in-facts `fs0` and the records `r0` a search has come to the head `head` and `r`. */
  ghost predicate Arrived(b: Block, lp: seq<Variable>, once: bool, first: bool, fs0: FactVec, head: FactVec, r0: Records, r: Records, around: Effect, noWrite: set<Variable>) {
    exists heads, rs :: Rounds(b, lp, once, fs0, heads, rs, r0, around, noWrite)
      && heads[|rs| - 1] == head && rs[|rs| - 1] == r && (first <==> |rs| == 1)
  }

  /** ... or has just made a pass from there. */
  ghost predicate Passed(b: Block, lp: seq<Variable>, once: bool, fs0: FactVec, head: FactVec, r0: Records, r: Records, around: Effect, noWrite: set<Variable>) {
    exists first, m :: Arrived(b, lp, once, first, fs0, head, r0, m, around, noWrite)
      && ((once && first) || !Settled(b, head, m, around, noWrite)) && PassRan(b, lp, head, m, r, around, noWrite)
  }

  /** The first `i` statements of a pass from `head` have led to `gs` and the records `r`. */
  ghost predicate Reached(b: Block, lp: seq<Variable>, i: nat, head: FactVec, gs: FactVec, r0: Records, r: Records, around: Effect, noWrite: set<Variable>) {
    exists trail, ms :: Through(b, lp, head, trail, ms, r0, around, noWrite) && |ms| == i + 1 && trail[i] == gs && ms[i] == r
  }

  class FactMgr {
    var factsIn: FactMap
    var factsOut: FactMap
    var visited: set<nat>
    var stmEffect: map<nat, Effect>
    var cfgEdges: seq<Edge>

    constructor (edges: seq<Edge>)
      ensures View() == Records(map[], map[], {}, map[], edges)
    {
      factsIn, factsOut, visited, stmEffect, cfgEdges := map[], map[], {}, map[], edges;
    }

    function View(): Records
      reads this
    {
      Records(factsIn, factsOut, visited, stmEffect, cfgEdges)
    }

    /** Reuses the recorded out-facts when the in-facts are the recorded ones. Result 0: reused;
        1: the recorded effect conflicts with the surroundings; 2: nothing to reuse. */
    method ShortcutAnalysis(id: nat, isCtrl: bool, inputs: FactVec, cg: CGContext) returns (code: int, outputs: FactVec)
      modifies cg
      ensures code in {0, 1, 2}
      ensures code == 2 <==> isCtrl || !SameFactsSpec(inputs, At(factsIn, id))
      ensures code != 2 ==> (code == 0 <==> Fits(EffectAt(stmEffect, id), old(cg.effectContext), old(cg.noWrite)))
      ensures code == 0 ==> outputs == At(factsOut, id)
      ensures cg.View() == if code == 0 then old(cg.View()).Merge(EffectAt(stmEffect, id), false) else old(cg.View())
    {
      outputs := inputs;
      var same := SameFacts(inputs, At(factsIn, id));
      if same && !isCtrl {
        var clash := cg.InConflict(EffectAt(stmEffect, id));
        if clash { return 1, inputs; }
        cg.AddEffect(EffectAt(stmEffect, id));
        return 0, At(factsOut, id);
      }
      return 2, inputs;
    }

    /** Analyses statement `x` from `inputs`. On success every run of `x` from a store `inputs`
        cover is accounted for by `outputs` and the records of the jumps inside `x`. */
    method ValidateAndUpdateFacts(x: Stmt, inputs: FactVec, cg: CGContext, lp: seq<Variable>, ghost scope: set<Variable>, ghost inLoop: bool)
      returns (ok: bool, outputs: FactVec)
      requires Visitable(x, inputs, scope, lp, inLoop, View())
      modifies this, cg
      ensures cg.effectContext == old(cg.effectContext) && cg.noWrite == old(cg.noWrite)
      ensures StmtAnalysed(x, inputs, ok, outputs, scope, lp, old(View()), View(), cg.effectContext, cg.noWrite)
      decreases x, 4
    {
      var isCtrl := x.Break? || x.Continue?;
      var code;
      code, outputs := ShortcutAnalysis(x.id, isCtrl, inputs, cg);
      if code == 0 {
        ReusedAnalysed(x, inputs, scope, lp, inLoop, View(), cg.effectContext, cg.noWrite);
        return true, outputs;
      }
      if code == 1 { return false, inputs; }
      ok, outputs := VisitAndRecord(x, inputs, cg, lp, scope, inLoop);
    }

    method VisitAndRecord(x: Stmt, inputs: FactVec, cg: CGContext, lp: seq<Variable>, ghost scope: set<Variable>, ghost inLoop: bool)
      returns (ok: bool, outputs: FactVec)
      requires Visitable(x, inputs, scope, lp, inLoop, View()) && !Reusable(x, inputs, View())
      modifies this, cg
      ensures cg.effectContext == old(cg.effectContext) && cg.noWrite == old(cg.noWrite)
      ensures StmtAnalysed(x, inputs, ok, outputs, scope, lp, old(View()), View(), cg.effectContext, cg.noWrite)
      decreases x, 3
    {
      ghost var r0 := View();
      ok, outputs := StmVisitFacts(x, inputs, cg, lp, scope, inLoop);
      if ok {
        VisitedAnalysed(x, inputs, outputs, scope, lp, inLoop, r0, View(), cg.effectContext, cg.noWrite);
        SetFacts(x, inputs, outputs, lp);
      }
    }

    /** Records the in- and out-facts of a visited statement. */
    method SetFacts(x: Stmt, inputs: FactVec, outputs: FactVec, lp: seq<Variable>)
      modifies this`factsIn, this`factsOut
      ensures View() == Storing(old(View()), x, inputs, outputs, lp)
    {
      factsIn := factsIn[x.id := inputs];
      if x.Break? || x.Continue? {
        var stored := UpdateFactsForOosVars(lp, outputs);
        factsOut := factsOut[x.id := stored];
      } else {
        factsOut := factsOut[x.id := outputs];
      }
    }

    method StmVisitFacts(x: Stmt, inputs: FactVec, cg: CGContext, lp: seq<Variable>, ghost scope: set<Variable>, ghost inLoop: bool)
      returns (ok: bool, outputs: FactVec)
      requires Visitable(x, inputs, scope, lp, inLoop, View())
      modifies this, cg
      ensures cg.effectContext == old(cg.effectContext) && cg.noWrite == old(cg.noWrite)
      ensures StmtVisited(x, inputs, ok, outputs, scope, lp, old(View()), View(), cg.effectContext, cg.noWrite)
      decreases x, 2
    {
      cg.effectStm := NO_EFFECT;
      ghost var r0 := View();
      visited := visited + {x.id};
      ghost var r := View();
      assert r == r0.Marked(x.id);
      match x
      case If(_, _, _, _) => ok, outputs := VisitIf(x, inputs, cg, lp, scope, inLoop);
      case For(_, _, _, _, _, _) => ok, outputs := VisitFor(x, inputs, cg, lp, scope, inLoop);
      case _ => ok, outputs := VisitSimple(x, inputs, cg, lp, scope, inLoop);
      MarkedVisited(x, inputs, ok, outputs, scope, lp, r0, r, View(), cg.effectContext, cg.noWrite);
    }

    /** An expression statement, or a jump with its test. */
    method VisitSimple(x: Stmt, inputs: FactVec, cg: CGContext, lp: seq<Variable>, ghost scope: set<Variable>, ghost inLoop: bool)
      returns (ok: bool, outputs: FactVec)
      requires !x.If? && !x.For? && Visitable(x, inputs, scope, lp, inLoop, View()) && cg.effectStm == NO_EFFECT && x.id in visited
      modifies this, cg
      ensures cg.effectContext == old(cg.effectContext) && cg.noWrite == old(cg.noWrite)
      ensures StmtVisited(x, inputs, ok, outputs, scope, lp, old(View()), View(), cg.effectContext, cg.noWrite)
    {
      ghost var c := cg.View();
      ok, outputs := VisitExpr(FirstExpr(x), inputs, cg, scope);
      if ok {
        SimpleVisited(x, inputs, scope, lp, inLoop, View(), c);
        RecordEffect(x.id, cg.effectStm);
      } else {
        RefusedFails(x, lp, inputs, View(), cg.effectContext, cg.noWrite);
      }
    }

    /** Visits one expression of a statement whose effect so far is empty. */
    method VisitExpr(e: Expr, inputs: FactVec, cg: CGContext, ghost scope: set<Variable>) returns (ok: bool, outputs: FactVec)
      requires ExprOk(e, scope) && ScopeOk(scope) && FactsOk(inputs, scope) && cg.effectStm == NO_EFFECT
      modifies cg
      ensures ok <==> Visit(e, inputs, old(cg.View())).Some?
      ensures ok ==> (outputs, cg.View()) == Visit(e, inputs, old(cg.View())).value
      ensures ok ==> FactsOk(outputs, scope) && Fits(cg.effectStm, cg.effectContext, cg.noWrite)
      ensures ok <==> !Refuses(e, inputs, cg.effectContext, cg.noWrite)
      ensures ok ==> outputs == FactsAfter(e, inputs, cg.effectContext, cg.noWrite) && cg.effectStm == EffectOf(e, inputs, cg.effectContext, cg.noWrite)
      ensures cg.effectContext == old(cg.effectContext) && cg.noWrite == old(cg.noWrite)
    {
      ok, outputs := cg.VisitFacts(e, inputs);
      ExprRuns(e, inputs, old(cg.View()));
      if ok {
        VisitScoped(e, inputs, old(cg.View()), scope);
        VisitKeeps(e, inputs, old(cg.View()));
        VisitFits(e, inputs, old(cg.View()));
      }
    }

    method RecordEffect(id: nat, eff: Effect)
      modifies this`stmEffect
      ensures View() == old(View()).(stmEffect := old(stmEffect)[id := eff])
    {
      stmEffect := stmEffect[id := eff];
    }

    method VisitIf(x: Stmt, inputs: FactVec, cg: CGContext, lp: seq<Variable>, ghost scope: set<Variable>, ghost inLoop: bool)
      returns (ok: bool, outputs: FactVec)
      requires x.If? && Visitable(x, inputs, scope, lp, inLoop, View()) && cg.effectStm == NO_EFFECT && x.id in visited
      modifies this, cg
      ensures cg.effectContext == old(cg.effectContext) && cg.noWrite == old(cg.noWrite)
      ensures StmtVisited(x, inputs, ok, outputs, scope, lp, old(View()), View(), cg.effectContext, cg.noWrite)
      decreases x, 1
    {
      ghost var c, r0 := cg.View(), View();
      ok, outputs := VisitExpr(x.test, inputs, cg, scope);
      if !ok {
        RefusedFails(x, lp, inputs, r0, cg.effectContext, cg.noWrite);
        return;
      }
      var eff, tested := cg.effectStm, outputs;
      var outT, outE;
      ghost var r2;
      ok, outT, outE, r2 := VisitBranches(x, tested, cg, lp, scope, inLoop);
      if !ok {
        InsideFails(x, lp, inputs, r0, View(), cg.effectContext, cg.noWrite);
        return;
      }
      IfVisited(x, inputs, outT, outE, scope, lp, inLoop, r0, r2, View(), c);
      RecordEffect(x.id, eff.Add(EffectAt(stmEffect, x.thn.id), false).Add(EffectAt(stmEffect, x.els.id), false));
      var changed;
      outputs, changed := MergeFacts(outT, outE);
    }

    method VisitBranches(x: Stmt, tested: FactVec, cg: CGContext, lp: seq<Variable>, ghost scope: set<Variable>, ghost inLoop: bool)
      returns (ok: bool, outT: FactVec, outE: FactVec, ghost r1: Records)
      requires x.If? && Visitable(x, tested, scope, lp, inLoop, View())
      modifies this, cg
      ensures cg.effectContext == old(cg.effectContext) && cg.noWrite == old(cg.noWrite)
      ensures OnlyTouched(old(View()), View(), Ids(x))
      ensures ok ==> BothRan(x, lp, tested, outT, outE, old(View()), r1, View(), cg.effectContext, cg.noWrite)
      ensures ok ==> BlockDone(x.thn, tested, outT, scope, lp, View(), cg.effectContext, cg.noWrite)
      ensures ok ==> BlockDone(x.els, tested, outE, scope, lp, View(), cg.effectContext, cg.noWrite)
      ensures !ok ==> BothFailed(x, lp, tested, old(View()), View(), cg.effectContext, cg.noWrite)
      decreases x, 0
    {
      ghost var r0 := View();
      ThenVisitable(x, tested, scope, lp, inLoop, r0);
      outE := tested;
      ok, outT := VisitBlock(x.thn, tested, cg, lp, scope, inLoop);
      r1 := View();
      TouchedStep(r0, r0, r1, Ids(x), BlockIds(x.thn));
      if !ok { return; }
      ElseVisitable(x, tested, scope, lp, inLoop, r0, r1);
      ok, outE := VisitBlock(x.els, tested, cg, lp, scope, inLoop);
      TouchedStep(r0, r1, View(), Ids(x), BlockIds(x.els));
      if ok { BlockStaysDone(x.thn, tested, outT, scope, lp, r1, View(), cg.effectContext, cg.noWrite, BlockIds(x.els)); }
    }

    method VisitFor(x: Stmt, inputs: FactVec, cg: CGContext, lp: seq<Variable>, ghost scope: set<Variable>, ghost inLoop: bool)
      returns (ok: bool, outputs: FactVec)
      requires x.For? && Visitable(x, inputs, scope, lp, inLoop, View()) && cg.effectStm == NO_EFFECT && x.id in visited
      modifies this, cg
      ensures cg.effectContext == old(cg.effectContext) && cg.noWrite == old(cg.noWrite)
      ensures StmtVisited(x, inputs, ok, outputs, scope, lp, old(View()), View(), cg.effectContext, cg.noWrite)
      decreases x, 1
    {
      ghost var c, r0 := cg.View(), View();
      var start;
      ok, start := VisitExpr(x.init, inputs, cg, scope);
      outputs := start;
      if !ok {
        RefusedFails(x, lp, inputs, r0, cg.effectContext, cg.noWrite);
        return;
      }
      var eff := cg.effectStm;
      var out;
      ok, out := VisitBody(x, start, cg, lp, scope, inLoop);
      if !ok {
        BodyFails(x, inputs, start, scope, lp, inLoop, r0, View(), cg.effectContext, cg.noWrite);
        return;
      }
      ForVisited(x, inputs, out, scope, lp, inLoop, r0, View(), c);
      outputs := MergeBreaks(At(factsIn, x.body.id), Sources(cfgEdges, x.id, true, false));
      RecordEffect(x.id, eff.Add(EffectAt(stmEffect, x.body.id), false));
    }

    /** Visits the body of a loop, which must not write the induction variable. */
    method VisitBody(x: Stmt, start: FactVec, cg: CGContext, lp: seq<Variable>, ghost scope: set<Variable>, ghost inLoop: bool)
      returns (ok: bool, outputs: FactVec)
      requires x.For? && Visitable(x, start, scope, lp, inLoop, View())
      modifies this, cg
      ensures cg.effectContext == old(cg.effectContext) && cg.noWrite == old(cg.noWrite)
      ensures BlockAnalysed(x.body, start, ok, outputs, scope, [], old(View()), View(), cg.effectContext, cg.noWrite + {x.iv})
      decreases x, 0
    {
      var saved := cg.noWrite;
      BodyVisitable(x, start, scope, lp, inLoop, View());
      cg.noWrite := cg.noWrite + {x.iv};
      ok, outputs := VisitBlock(x.body, start, cg, [], scope, true);
      cg.noWrite := saved;
    }

    method MergeBreaks(facts: FactVec, srcs: seq<nat>) returns (r: FactVec)
      ensures r == JumpMergedAll(facts, srcs, factsOut)
    {
      r := facts;
      var i := 0;
      while i < |srcs|
        invariant 0 <= i <= |srcs| && JumpMergedAll(facts, srcs, factsOut) == JumpMergedAll(r, srcs[i..], factsOut)
      {
        assert srcs[i..][1..] == srcs[i + 1..];
        var changed;
        r, changed := MergeJumpFacts(r, At(factsOut, srcs[i]));
        i := i + 1;
      }
    }

    /** `Block::visit_facts`. */
    method VisitBlock(b: Block, inputs: FactVec, cg: CGContext, lp: seq<Variable>, ghost scope: set<Variable>, ghost inLoop: bool)
      returns (ok: bool, outputs: FactVec)
      requires BlockVisitable(b, inputs, scope, lp, inLoop, View())
      requires BlockMemo(b, scope, lp, factsIn, factsOut, cfgEdges)
      modifies this, cg
      ensures cg.effectContext == old(cg.effectContext) && cg.noWrite == old(cg.noWrite)
      ensures BlockAnalysed(b, inputs, ok, outputs, scope, lp, old(View()), View(), cg.effectContext, cg.noWrite)
      decreases b, 5
    {
      var saved := cg.effectAccum;
      var post, failed;
      ok, post, failed := FindFixedPoint(b, inputs, cg, lp, false, scope, inLoop);
      if ok {
        outputs := At(factsOut, b.id);
        MarkVisited(b.id);
      } else {
        cg.effectAccum := saved;
        outputs := inputs;
      }
    }

    method AddEdge(e: Edge)
      modifies this`cfgEdges
      ensures View() == old(View()).(cfgEdges := old(cfgEdges) + [e])
    {
      cfgEdges := cfgEdges + [e];
    }

    method MarkVisited(id: nat)
      modifies this`visited
      ensures View() == old(View()).(visited := old(visited) + {id})
    {
      visited := visited + {id};
    }

    /** Iterates over the statements of `b`, feeding the out-facts of all back edges into its
        in-facts, until the in-facts are the recorded ones. */
    method FindFixedPoint(b: Block, inputs0: FactVec, cg: CGContext, lp: seq<Variable>, visitOnce0: bool, ghost scope: set<Variable>, ghost inLoop: bool)
      returns (ok: bool, postFacts: FactVec, failIndex: nat)
      requires BlockVisitable(b, inputs0, scope, lp, inLoop, View())
      requires BlockStarted(b, scope, lp, View())
      modifies this, cg
      ensures cg.effectContext == old(cg.effectContext) && cg.noWrite == old(cg.noWrite)
      ensures OnlyTouched(old(View()), View(), BlockIds(b))
      ensures ok ==> BlockDone(b, inputs0, At(factsOut, b.id), scope, lp, View(), cg.effectContext, cg.noWrite)
      ensures ok ==> SearchRan(b, lp, visitOnce0, inputs0, old(View()), View(), cg.effectContext, cg.noWrite)
      ensures !ok ==> failIndex < |b.stms| && SearchFailed(b, lp, visitOnce0, failIndex, inputs0, old(View()), View(), cg.effectContext, cg.noWrite)
      decreases b, 4
    {
      var inputs, visitOnce := inputs0, visitOnce0;
      ghost var first, r0 := true, View();
      postFacts, failIndex := [], 0;
      FirstPass(b, inputs0, scope, lp, inLoop, visitOnce0, r0, cg.effectContext, cg.noWrite);
      while true
        invariant cg.effectContext == old(cg.effectContext) && cg.noWrite == old(cg.noWrite)
        invariant Iterating(b, scope, lp, inLoop, visitOnce0, inputs0, inputs, first, r0, View(), cg.effectContext, cg.noWrite)
        invariant visitOnce == (visitOnce0 && first)
        decreases Slack(inputs, scope) + if first then 1 else 0
      {
        var done;
        done, ok, postFacts, failIndex, inputs := NextRound(b, visitOnce, inputs, cg, lp, visitOnce0, first, inputs0, r0, scope, inLoop);
        if done { return; }
        visitOnce, first := false, false;
      }
      assert false;
    }

    /** One round: the out-facts of the back edges are merged in, and unless the search is over a pass
        is made. */
    method NextRound(b: Block, visitOnce: bool, last: FactVec, cg: CGContext, lp: seq<Variable>, ghost once: bool, ghost first: bool, ghost inputs0: FactVec, ghost r0: Records, ghost scope: set<Variable>, ghost inLoop: bool)
      returns (done: bool, ok: bool, postFacts: FactVec, failIndex: nat, inputs: FactVec)
      requires Iterating(b, scope, lp, inLoop, once, inputs0, last, first, r0, View(), cg.effectContext, cg.noWrite)
      requires visitOnce == (once && first)
      modifies this, cg
      ensures cg.effectContext == old(cg.effectContext) && cg.noWrite == old(cg.noWrite)
      ensures done ==> OnlyTouched(r0, View(), BlockIds(b))
      ensures done && ok ==> BlockDone(b, inputs0, At(factsOut, b.id), scope, lp, View(), cg.effectContext, cg.noWrite)
      ensures done && ok ==> SearchRan(b, lp, once, inputs0, r0, View(), cg.effectContext, cg.noWrite)
      ensures done && !ok ==> failIndex < |b.stms| && SearchFailed(b, lp, once, failIndex, inputs0, r0, View(), cg.effectContext, cg.noWrite)
      ensures !done ==> Iterating(b, scope, lp, inLoop, once, inputs0, inputs, false, r0, View(), cg.effectContext, cg.noWrite)
      ensures !done ==> Slack(inputs, scope) <= Slack(last, scope) && (!first ==> Slack(inputs, scope) < Slack(last, scope))
      decreases b, 3
    {
      ok, postFacts, failIndex := true, [], 0;
      inputs := NextHead(b, once, first, inputs0, last, lp, r0, scope, inLoop, cg.effectContext, cg.noWrite);
      ghost var r := View();
      var code := 2;
      if !visitOnce { code := TryRecord(b, inputs, cg); }
      assert View() == r;
      done := code == 0;
      if !done {
        ok, postFacts, failIndex := NextPass(b, once, first, inputs0, inputs, cg, lp, r0, scope, inLoop);
        done := !ok;
      }
    }

    /** The in-facts of the next pass; if they are the recorded ones, the search is over. */
    method NextHead(b: Block, ghost once: bool, ghost first: bool, ghost inputs0: FactVec, last: FactVec, lp: seq<Variable>, ghost r0: Records, ghost scope: set<Variable>, ghost inLoop: bool, ghost around: Effect, ghost noWrite: set<Variable>)
      returns (head: FactVec)
      requires Iterating(b, scope, lp, inLoop, once, inputs0, last, first, r0, View(), around, noWrite)
      ensures OnlyTouched(r0, View(), BlockIds(b)) && BlockVisitable(b, head, scope, lp, inLoop, View())
      ensures HeadOf(b, inputs0, head, scope) && Arrived(b, lp, once, first, inputs0, head, r0, View(), around, noWrite)
      ensures Settled(b, head, View(), around, noWrite) && !(once && first) ==>
        BlockDone(b, inputs0, At(factsOut, b.id), scope, lp, View(), around, noWrite) && SearchRan(b, lp, once, inputs0, r0, View(), around, noWrite)
      ensures 0 <= Slack(head, scope) <= Slack(last, scope)
      ensures !first && !Settled(b, head, View(), around, noWrite) ==> Slack(head, scope) < Slack(last, scope)
    {
      head := FeedBackEdges(b, last, lp, scope, inLoop);
      HeadReached(b, scope, lp, inLoop, once, inputs0, last, head, first, r0, View(), around, noWrite);
      if Settled(b, head, View(), around, noWrite) && !(once && first) {
        Stabilised(b, scope, lp, inLoop, once, inputs0, last, head, first, r0, View(), around, noWrite);
      }
    }

    method TryRecord(b: Block, inputs: FactVec, cg: CGContext) returns (code: int)
      modifies cg
      ensures cg.effectContext == old(cg.effectContext) && cg.noWrite == old(cg.noWrite)
      ensures code == 0 <==> SameFactsSpec(inputs, At(factsIn, b.id)) && Fits(EffectAt(stmEffect, b.id), cg.effectContext, cg.noWrite)
    {
      var reused;
      code, reused := ShortcutAnalysis(b.id, false, inputs, cg);
    }

    /** One pass of the iteration that began with `inputs0`. */
    method NextPass(b: Block, ghost once: bool, ghost first: bool, ghost inputs0: FactVec, inputs: FactVec, cg: CGContext, lp: seq<Variable>, ghost r0: Records, ghost scope: set<Variable>, ghost inLoop: bool)
      returns (ok: bool, postFacts: FactVec, failIndex: nat)
      requires BlockVisitable(b, inputs, scope, lp, inLoop, View()) && HeadOf(b, inputs0, inputs, scope)
      requires OnlyTouched(r0, View(), BlockIds(b)) && Slack(inputs, scope) >= 0
      requires Arrived(b, lp, once, first, inputs0, inputs, r0, View(), cg.effectContext, cg.noWrite)
      requires (once && first) || !Settled(b, inputs, View(), cg.effectContext, cg.noWrite)
      modifies this, cg
      ensures cg.effectContext == old(cg.effectContext) && cg.noWrite == old(cg.noWrite)
      ensures ok ==> Iterating(b, scope, lp, inLoop, once, inputs0, inputs, false, r0, View(), cg.effectContext, cg.noWrite)
      ensures !ok ==> OnlyTouched(r0, View(), BlockIds(b))
      ensures !ok ==> failIndex < |b.stms| && SearchFailed(b, lp, once, failIndex, inputs0, r0, View(), cg.effectContext, cg.noWrite)
      decreases b, 2
    {
      ghost var r := View();
      ok, postFacts, failIndex := Pass(b, inputs, cg, lp, scope, inLoop);
      TouchedStep(r0, r, View(), BlockIds(b), BlockIds(b));
      if ok {
        PassedOnce(b, scope, lp, inLoop, once, first, inputs0, inputs, r0, r, View(), cg.effectContext, cg.noWrite);
      } else {
        FailsHere(b, lp, once, first, failIndex, inputs0, inputs, r0, r, View(), cg.effectContext, cg.noWrite);
      }
    }

    /** The in-facts of the next pass: above those of the last one, above every back edge, and, if they
        are not the same facts, with strictly less room to grow. */
    method FeedBackEdges(b: Block, inputs: FactVec, lp: seq<Variable>, ghost scope: set<Variable>, ghost inLoop: bool) returns (r: FactVec)
      requires BlockVisitable(b, inputs, scope, lp, inLoop, View())
      ensures FactsOk(r, scope) && Below(inputs, r, scope) && 0 <= Slack(r, scope) <= Slack(inputs, scope)
      ensures r == Fed(b, inputs, View())
      ensures b.id in visited ==> AboveBackEdges(b, r, scope, factsOut, cfgEdges)
      ensures b.id in visited && !SameFactsSpec(r, inputs) ==> Slack(r, scope) < Slack(inputs, scope)
    {
      r := inputs;
      var srcs := Sources(cfgEdges, b.id, false, true);
      GraphBounded(inputs, scope);
      if b.id in visited {
        BackSourcesOk(b, scope, lp, factsIn, factsOut, cfgEdges, inLoop);
        MergedSourcesMeaning(inputs, srcs, factsOut, scope);
        MergedSourcesSlack(inputs, srcs, factsOut, scope);
        r := MergeBackEdges(inputs, srcs);
        if !SameFactsSpec(r, inputs) { PassMakesProgress(inputs, srcs, factsOut, scope); }
      }
    }

    method MergeBackEdges(facts: FactVec, srcs: seq<nat>) returns (r: FactVec)
      ensures r == MergedSources(facts, srcs, factsOut)
    {
      r := facts;
      var i := 0;
      while i < |srcs|
        invariant 0 <= i <= |srcs| && MergedSources(facts, srcs, factsOut) == MergedSources(r, srcs[i..], factsOut)
      {
        assert srcs[i..][1..] == srcs[i + 1..];
        var changed;
        r, changed := MergeFacts(r, At(factsOut, srcs[i]));
        i := i + 1;
      }
    }

    /** One pass over the statements of `b` from the in-facts `inputs`. */
    method Pass(b: Block, inputs: FactVec, cg: CGContext, lp: seq<Variable>, ghost scope: set<Variable>, ghost inLoop: bool)
      returns (ok: bool, postFacts: FactVec, failIndex: nat)
      requires BlockVisitable(b, inputs, scope, lp, inLoop, View())
      modifies this, cg
      ensures cg.effectContext == old(cg.effectContext) && cg.noWrite == old(cg.noWrite)
      ensures OnlyTouched(old(View()), View(), BlockIds(b))
      ensures ok ==> PassRecorded(b, scope, lp, inputs, View(), cg.effectContext, cg.noWrite)
      ensures ok ==> PassRan(b, lp, inputs, old(View()), View(), cg.effectContext, cg.noWrite)
      ensures !ok ==> failIndex < |b.stms| && PassFailed(b, lp, failIndex, inputs, old(View()), View(), cg.effectContext, cg.noWrite)
      decreases b, 1
    {
      EnterBlock(b, scope, inputs);
      var entry := AddLocals(b.locals, inputs);
      ghost var r0 := View();
      ok, postFacts, failIndex := VisitStatements(b, entry, inputs, cg, lp, scope, inLoop);
      if ok {
        FinishPass(b, inputs, postFacts, cg, lp, r0, scope, inLoop);
      } else {
        TouchedStep(r0, r0, View(), BlockIds(b), SeqIds(b.stms));
      }
    }

    method FinishPass(b: Block, inputs: FactVec, postFacts: FactVec, cg: CGContext, lp: seq<Variable>, ghost r0: Records, ghost scope: set<Variable>, ghost inLoop: bool)
      requires BlockVisitable(b, inputs, scope, lp, inLoop, r0) && OnlyTouched(r0, View(), SeqIds(b.stms))
      requires PrefixDone(b, |b.stms|, scope, lp, inputs, postFacts, r0, View(), cg.effectContext, cg.noWrite)
      modifies this`factsIn, this`factsOut, this`visited, this`stmEffect
      ensures OnlyTouched(r0, View(), BlockIds(b)) && PassRecorded(b, scope, lp, inputs, View(), cg.effectContext, cg.noWrite)
      ensures PassRan(b, lp, inputs, r0, View(), cg.effectContext, cg.noWrite)
    {
      ghost var r := View();
      RecordPass(b, inputs, postFacts);
      ReachedEnd(b, lp, inputs, postFacts, r0, r, cg.effectContext, cg.noWrite);
      assert b.stms[..|b.stms|] == b.stms;
      StoredFacts(r, b, inputs, postFacts, cg.effectContext, cg.noWrite);
      PassDone(b, scope, lp, inLoop, inputs, postFacts, r0, r, View(), cg.effectContext, cg.noWrite);
    }

    /** Records the facts and the effect of a block whose statements have been visited. */
    method RecordPass(b: Block, inputs: FactVec, postFacts: FactVec)
      modifies this`factsIn, this`factsOut, this`visited, this`stmEffect
      ensures View() == PassStored(old(View()), b, inputs, postFacts)
    {
      var outputs := UpdateFactsForOosVars(DeclVars(b.locals), postFacts);
      factsIn, factsOut := factsIn[b.id := inputs], factsOut[b.id := outputs];
      visited := visited + {b.id};
      SetAccumulatedEffect(b);
    }

    method VisitStatements(b: Block, entry: FactVec, ghost head: FactVec, cg: CGContext, lp: seq<Variable>, ghost scope: set<Variable>, ghost inLoop: bool)
      returns (ok: bool, outputs: FactVec, failIndex: nat)
      requires BlockVisitable(b, head, scope, lp, inLoop, View())
      requires entry == AddedLocals(head, b.locals) && FactsOk(entry, scope + LocalCells(b))
      modifies this, cg
      ensures cg.effectContext == old(cg.effectContext) && cg.noWrite == old(cg.noWrite)
      ensures OnlyTouched(old(View()), View(), SeqIds(b.stms))
      ensures ok ==> PrefixDone(b, |b.stms|, scope, lp, head, outputs, old(View()), View(), cg.effectContext, cg.noWrite)
      ensures !ok ==> failIndex < |b.stms| && PassFailed(b, lp, failIndex, head, old(View()), View(), cg.effectContext, cg.noWrite)
      decreases b, 0, 1
    {
      ghost var r0 := View();
      NoneDone(b, scope, lp, head, r0, cg.effectContext, cg.noWrite);
      ok, outputs, failIndex := true, entry, 0;
      var i: nat := 0;
      while i < |b.stms|
        invariant i <= |b.stms| && ok && OnlyTouched(r0, View(), SeqIds(b.stms))
        invariant cg.effectContext == old(cg.effectContext) && cg.noWrite == old(cg.noWrite)
        invariant PrefixDone(b, i, scope, lp, head, outputs, r0, View(), cg.effectContext, cg.noWrite)
        decreases |b.stms| - i
      {
        ok, outputs := VisitStatement(b, i, head, outputs, cg, lp, r0, scope, inLoop);
        if !ok { return ok, outputs, i; }
        i := i + 1;
      }
    }

    method VisitStatement(b: Block, i: nat, ghost head: FactVec, inputs: FactVec, cg: CGContext, lp: seq<Variable>, ghost r0: Records, ghost scope: set<Variable>, ghost inLoop: bool)
      returns (ok: bool, outputs: FactVec)
      requires BlockVisitable(b, head, scope, lp, inLoop, r0) && i < |b.stms| && OnlyTouched(r0, View(), SeqIds(b.stms))
      requires PrefixDone(b, i, scope, lp, head, inputs, r0, View(), cg.effectContext, cg.noWrite)
      modifies this, cg
      ensures cg.effectContext == old(cg.effectContext) && cg.noWrite == old(cg.noWrite)
      ensures OnlyTouched(r0, View(), SeqIds(b.stms))
      ensures ok ==> PrefixDone(b, i + 1, scope, lp, head, outputs, r0, View(), cg.effectContext, cg.noWrite)
      ensures !ok ==> PassFailed(b, lp, i, head, r0, View(), cg.effectContext, cg.noWrite)
      decreases b, 0, 0
    {
      ghost var r := View();
      NextVisitable(b, i, head, inputs, scope, lp, inLoop, r0, r, cg.effectContext, cg.noWrite);
      ok, outputs := ValidateAndUpdateFacts(b.stms[i], inputs, cg, DeclVars(b.locals) + lp, scope + LocalCells(b), inLoop);
      StepDone(b, i, scope, lp, inLoop, head, inputs, ok, outputs, r0, r, View(), cg.effectContext, cg.noWrite);
    }

    method SetAccumulatedEffect(b: Block)
      modifies this`stmEffect
      ensures stmEffect == old(stmEffect)[b.id := EffectsOf(b.stms, old(stmEffect))]
    {
      var eff := NO_EFFECT;
      assert b.stms[..0] == [];
      for i := 0 to |b.stms|
        invariant eff == EffectsOf(b.stms[..i], stmEffect)
      {
        assert b.stms[..i + 1][..i] == b.stms[..i];
        eff := eff.Add(EffectAt(stmEffect, b.stms[i].id), false);
      }
      assert b.stms[..|b.stms|] == b.stms;
      stmEffect := stmEffect[b.id := eff];
    }
  }

  // ---------- lemmas used by the manager ----------

  ghost predicate AboveBackEdges(b: Block, fs: FactVec, scope: set<Variable>, fo: FactMap, edges: seq<Edge>) {
    forall id :: id in Sources(edges, b.id, false, true) ==> Below(At(fo, id), fs, scope)
  }

  lemma ReusedAnalysed(x: Stmt, fs: FactVec, scope: set<Variable>, lp: seq<Variable>, inLoop: bool, r: Records, around: Effect, noWrite: set<Variable>)
    requires Visitable(x, fs, scope, lp, inLoop, r) && Reusable(x, fs, r)
    requires Fits(EffectAt(r.stmEffect, x.id), around, noWrite)
    ensures StmtAnalysed(x, fs, true, At(r.factsOut, x.id), scope, lp, r, r, around, noWrite)
  {
    assert x.id in Ids(x);
    ReusedSound(x, scope, lp, fs, r.factsIn, r.factsOut, r.cfgEdges);
  }

  lemma VisitedAnalysed(x: Stmt, fs: FactVec, out: FactVec, scope: set<Variable>, lp: seq<Variable>, inLoop: bool, r0: Records, r: Records, around: Effect, noWrite: set<Variable>)
    requires Visitable(x, fs, scope, lp, inLoop, r0) && StmtVisited(x, fs, true, out, scope, lp, r0, r, around, noWrite) && !Reusable(x, fs, r0)
    ensures StmtAnalysed(x, fs, true, out, scope, lp, r0, Storing(r, x, fs, out, lp), around, noWrite)
  {
    StoredSound(x, fs, out, scope, lp, r0, r, around, noWrite);
    RanByVisit(x, lp, fs, out, r0, r, around, noWrite);
  }

  lemma StoredSound(x: Stmt, fs: FactVec, out: FactVec, scope: set<Variable>, lp: seq<Variable>, r0: Records, r: Records, around: Effect, noWrite: set<Variable>)
    requires Distinct(x) && EdgesOk(x, r.cfgEdges) && FactsOk(fs, scope) && ScopeOk(scope) && NoSpecial(lp)
    requires OnlyTouched(r0, r, Ids(x)) && VisitSound(x, fs, out, scope, lp, r, around, noWrite)
    ensures var q := Storing(r, x, fs, out, lp);
      && OnlyTouched(r0, q, Ids(x)) && FactsOk(out, scope) && StmtSound(x, scope, lp, fs, out, q.factsOut)
      && Memo(x, scope, lp, q.factsIn, q.factsOut, q.cfgEdges) && Fits(q.Effect(x.id), around, noWrite)
  {
    assert x.id in Ids(x);
    AfterVisit(x, scope, lp, fs, out, r.factsIn, r.factsOut, r.cfgEdges);
    TouchedStep(r0, r, Storing(r, x, fs, out, lp), Ids(x), {x.id});
  }

  lemma MarkedVisited(x: Stmt, fs: FactVec, ok: bool, out: FactVec, scope: set<Variable>, lp: seq<Variable>, r0: Records, r: Records, r': Records, around: Effect, noWrite: set<Variable>)
    requires r == r0.Marked(x.id) && StmtVisited(x, fs, ok, out, scope, lp, r, r', around, noWrite)
    ensures StmtVisited(x, fs, ok, out, scope, lp, r0, r', around, noWrite)
  {
    MarkedFirst(x, lp, fs, out, r0, r', around, noWrite);
  }

  lemma SimpleVisited(x: Stmt, fs: FactVec, scope: set<Variable>, lp: seq<Variable>, inLoop: bool, r: Records, c: Context)
    requires !x.If? && !x.For? && Visitable(x, fs, scope, lp, inLoop, r) && c.stm == NO_EFFECT && x.id in r.visited
    requires Visit(FirstExpr(x), fs, c).Some?
    ensures var (out, c') := Visit(FirstExpr(x), fs, c).value;
      StmtVisited(x, fs, true, out, scope, lp, r, r.WithEffect(x.id, c'.stm), c.context, c.noWrite)
  {
    var e := FirstExpr(x);
    VisitScoped(e, fs, c, scope);
    VisitFits(e, fs, c);
    ExprRuns(e, fs, c);
    assert r.Marked(x.id) == r;
    if x.ExprStmt? {
      ExprStmtSound(x, scope, lp, fs, c, r.factsOut);
    } else {
      JumpVisited(x, scope, lp, fs, c, r.factsIn, r.factsOut, r.cfgEdges);
    }
  }

  lemma MemoVisitable(b: Block, fs: FactVec, scope: set<Variable>, lp: seq<Variable>, inLoop: bool, r: Records)
    requires BlockOk(b, scope, inLoop) && BlockDistinct(b) && BlockEdgesOk(b, r.cfgEdges) && NoSpecial(lp)
    requires lp != [] ==> Sources(r.cfgEdges, b.id, false, true) == []
    requires ScopeOk(scope) && Ready(BlockIds(b), scope, r.factsIn) && FactsOk(fs, scope)
    requires BlockMemo(b, scope, lp, r.factsIn, r.factsOut, r.cfgEdges)
    ensures BlockVisitable(b, fs, scope, lp, inLoop, r)
  {}

  lemma ThenVisitable(x: Stmt, fs: FactVec, scope: set<Variable>, lp: seq<Variable>, inLoop: bool, r: Records)
    requires x.If? && Visitable(x, fs, scope, lp, inLoop, r)
    ensures BlockIds(x.thn) <= Ids(x) && BlockVisitable(x.thn, fs, scope, lp, inLoop, r)
    ensures BlockMemo(x.thn, scope, lp, r.factsIn, r.factsOut, r.cfgEdges)
  {
    MemoVisitable(x.thn, fs, scope, lp, inLoop, r);
  }

  lemma ElseVisitable(x: Stmt, fs: FactVec, scope: set<Variable>, lp: seq<Variable>, inLoop: bool, r0: Records, r: Records)
    requires x.If? && Visitable(x, fs, scope, lp, inLoop, r0) && OnlyTouched(r0, r, BlockIds(x.thn))
    ensures BlockIds(x.els) <= Ids(x) && BlockIds(x.thn) !! BlockIds(x.els) && BlockEdgesOk(x.thn, r.cfgEdges)
    ensures BlockVisitable(x.els, fs, scope, lp, inLoop, r) && BlockMemo(x.els, scope, lp, r.factsIn, r.factsOut, r.cfgEdges)
  {
    BlockMemoFrame(x.els, scope, lp, r0.factsIn, r0.factsOut, r.factsIn, r.factsOut, r.cfgEdges);
    MemoVisitable(x.els, fs, scope, lp, inLoop, r);
  }

  lemma BlockStaysDone(b: Block, fs: FactVec, out: FactVec, scope: set<Variable>, lp: seq<Variable>, r: Records, r': Records, around: Effect, noWrite: set<Variable>, ids: set<nat>)
    requires BlockDone(b, fs, out, scope, lp, r, around, noWrite) && OnlyTouched(r, r', ids) && ids !! BlockIds(b) && BlockEdgesOk(b, r.cfgEdges)
    ensures BlockDone(b, fs, out, scope, lp, r', around, noWrite)
  {
    assert b.id in BlockIds(b);
    BlockMemoFrame(b, scope, lp, r.factsIn, r.factsOut, r'.factsIn, r'.factsOut, r.cfgEdges);
    BlockSoundFrame(b, scope, lp, fs, out, r.factsOut, r'.factsOut);
  }

  /** Recording the effect completes the visit of a statement. */
  lemma EffectRecorded(x: Stmt, fs: FactVec, out: FactVec, eff: Effect, scope: set<Variable>, lp: seq<Variable>, r0: Records, r: Records, around: Effect, noWrite: set<Variable>)
    requires OnlyTouched(r0, r, Ids(x)) && FactsOk(out, scope) && VisitedOk(x, scope, lp, fs, out, r.factsIn, r.factsOut, r.cfgEdges)
    requires Fits(eff, around, noWrite)
    ensures OnlyTouched(r0, r.WithEffect(x.id, eff), Ids(x)) && VisitSound(x, fs, out, scope, lp, r.WithEffect(x.id, eff), around, noWrite)
  {
    assert x.id in Ids(x);
    TouchedStep(r0, r, r.WithEffect(x.id, eff), Ids(x), {x.id});
  }

  lemma IfVisited(x: Stmt, fs: FactVec, outT: FactVec, outE: FactVec, scope: set<Variable>, lp: seq<Variable>, inLoop: bool, r0: Records, r2: Records, r: Records, c: Context)
    requires x.If? && Visitable(x, fs, scope, lp, inLoop, r0) && OnlyTouched(r0, r, Ids(x)) && c.stm == NO_EFFECT && Visit(x.test, fs, c).Some?
    requires BlockDone(x.thn, Visit(x.test, fs, c).value.0, outT, scope, lp, r, c.context, c.noWrite)
    requires BlockDone(x.els, Visit(x.test, fs, c).value.0, outE, scope, lp, r, c.context, c.noWrite)
    requires BothRan(x, lp, Visit(x.test, fs, c).value.0, outT, outE, r0, r2, r, c.context, c.noWrite) && x.id in r0.visited
    ensures StmtVisited(x, fs, true, MergedAll(outT, outE), scope, lp, r0, r.WithEffect(x.id, IfEffect(x, Visit(x.test, fs, c).value.1.stm, r)), c.context, c.noWrite)
  {
    VisitFits(x.test, fs, c);
    IfRan(x, fs, outT, outE, lp, r0, r2, r, c);
    MergedAllOk(outT, outE, scope);
    IfSound(x, scope, lp, fs, c, outT, outE, r.factsOut);
    EffectRecorded(x, fs, MergedAll(outT, outE), IfEffect(x, Visit(x.test, fs, c).value.1.stm, r), scope, lp, r0, r, c.context, c.noWrite);
  }

  lemma IfRan(x: Stmt, fs: FactVec, outT: FactVec, outE: FactVec, lp: seq<Variable>, r0: Records, r2: Records, r: Records, c: Context)
    requires x.If? && c.stm == NO_EFFECT && Visit(x.test, fs, c).Some? && x.id in r0.visited
    requires BothRan(x, lp, Visit(x.test, fs, c).value.0, outT, outE, r0, r2, r, c.context, c.noWrite)
    ensures VisitRan(x, lp, fs, MergedAll(outT, outE), r0, r.WithEffect(x.id, IfEffect(x, Visit(x.test, fs, c).value.1.stm, r)), c.context, c.noWrite)
  {
    ExprRuns(x.test, fs, c);
    assert r0.Marked(x.id) == r0;
  }

  lemma BodyVisitable(x: Stmt, fs: FactVec, scope: set<Variable>, lp: seq<Variable>, inLoop: bool, r: Records)
    requires x.For? && Visitable(x, fs, scope, lp, inLoop, r)
    ensures BlockVisitable(x.body, fs, scope, [], true, r) && BlockMemo(x.body, scope, [], r.factsIn, r.factsOut, r.cfgEdges)
    ensures BlockIds(x.body) <= Ids(x)
  {
    MemoVisitable(x.body, fs, scope, [], true, r);
  }

  lemma ForVisited(x: Stmt, fs: FactVec, outB: FactVec, scope: set<Variable>, lp: seq<Variable>, inLoop: bool, r0: Records, r: Records, c: Context)
    requires x.For? && Visitable(x, fs, scope, lp, inLoop, r0) && c.stm == NO_EFFECT && Visit(x.init, fs, c).Some? && x.id in r0.visited
    requires BlockAnalysed(x.body, Visit(x.init, fs, c).value.0, true, outB, scope, [], r0, r, c.context, c.noWrite + {x.iv})
    ensures var out := JumpMergedAll(At(r.factsIn, x.body.id), Sources(r.cfgEdges, x.id, true, false), r.factsOut);
      StmtVisited(x, fs, true, out, scope, lp, r0, r.WithEffect(x.id, ForEffect(x, Visit(x.init, fs, c).value.1.stm, r)), c.context, c.noWrite)
  {
    ForRan(x, fs, outB, lp, r0, r, c);
    ForVisitSound(x, fs, outB, scope, lp, inLoop, r0, r, c);
  }

  lemma ForVisitSound(x: Stmt, fs: FactVec, outB: FactVec, scope: set<Variable>, lp: seq<Variable>, inLoop: bool, r0: Records, r: Records, c: Context)
    requires x.For? && Visitable(x, fs, scope, lp, inLoop, r0) && c.stm == NO_EFFECT && Visit(x.init, fs, c).Some?
    requires OnlyTouched(r0, r, BlockIds(x.body))
    requires BlockDone(x.body, Visit(x.init, fs, c).value.0, outB, scope, [], r, c.context, c.noWrite + {x.iv})
    ensures var out := JumpMergedAll(At(r.factsIn, x.body.id), Sources(r.cfgEdges, x.id, true, false), r.factsOut);
      var q := r.WithEffect(x.id, ForEffect(x, Visit(x.init, fs, c).value.1.stm, r));
      OnlyTouched(r0, q, Ids(x)) && VisitSound(x, fs, out, scope, lp, q, c.context, c.noWrite)
  {
    VisitFits(x.init, fs, c);
    ForDone(x, scope, lp, fs, c, r.factsIn, r.factsOut, r.cfgEdges);
    BodyVisitable(x, fs, scope, lp, inLoop, r0);
    TouchedStep(r0, r0, r, Ids(x), BlockIds(x.body));
    var out := JumpMergedAll(At(r.factsIn, x.body.id), Sources(r.cfgEdges, x.id, true, false), r.factsOut);
    EffectRecorded(x, fs, out, ForEffect(x, Visit(x.init, fs, c).value.1.stm, r), scope, lp, r0, r, c.context, c.noWrite);
  }

  lemma BodyFails(x: Stmt, fs: FactVec, start: FactVec, scope: set<Variable>, lp: seq<Variable>, inLoop: bool, r0: Records, r: Records, around: Effect, noWrite: set<Variable>)
    requires x.For? && Visitable(x, start, scope, lp, inLoop, r0) && x.id in r0.visited
    requires !Refuses(x.init, fs, around, noWrite) && start == FactsAfter(x.init, fs, around, noWrite)
    requires OnlyTouched(r0, r, BlockIds(x.body)) && BlockFailed(x.body, [], start, r0, r, around, noWrite + {x.iv})
    ensures OnlyTouched(r0, r, Ids(x)) && VisitFailed(x, lp, fs, r0, r, around, noWrite)
  {
    BodyVisitable(x, start, scope, lp, inLoop, r0);
    TouchedStep(r0, r0, r, Ids(x), BlockIds(x.body));
    InsideFails(x, lp, fs, r0, r, around, noWrite);
  }

  lemma ForRan(x: Stmt, fs: FactVec, outB: FactVec, lp: seq<Variable>, r0: Records, r: Records, c: Context)
    requires x.For? && c.stm == NO_EFFECT && Visit(x.init, fs, c).Some? && x.id in r0.visited
    requires BlockRan(x.body, [], Visit(x.init, fs, c).value.0, outB, r0, r, c.context, c.noWrite + {x.iv})
    ensures var out := JumpMergedAll(At(r.factsIn, x.body.id), Sources(r.cfgEdges, x.id, true, false), r.factsOut);
      VisitRan(x, lp, fs, out, r0, r.WithEffect(x.id, ForEffect(x, Visit(x.init, fs, c).value.1.stm, r)), c.context, c.noWrite)
  {
    ExprRuns(x.init, fs, c);
    assert r0.Marked(x.id) == r0;
  }

  /** The last pass over `b` started from `fs` and its results are recorded. */
  ghost predicate PassRecorded(b: Block, scope: set<Variable>, lp: seq<Variable>, fs: FactVec, r: Records, around: Effect, noWrite: set<Variable>) {
    && b.id in r.visited && b.id in r.factsIn && At(r.factsIn, b.id) == fs
    && FactsOk(At(r.factsOut, b.id), scope) && BlockSound(b, scope, lp, fs, At(r.factsOut, b.id), r.factsOut)
    && InnerMemo(b, scope, lp, r.factsIn, r.factsOut, r.cfgEdges) && Fits(EffectAt(r.stmEffect, b.id), around, noWrite)
  }

  /** What holds before every pass: the in-facts are above the first ones, and after the first pass
      the last one is recorded. */
  ghost predicate Iterating(b: Block, scope: set<Variable>, lp: seq<Variable>, inLoop: bool, once: bool, fs0: FactVec, fs: FactVec, first: bool, r0: Records, r: Records, around: Effect, noWrite: set<Variable>) {
    && OnlyTouched(r0, r, BlockIds(b)) && BlockVisitable(b, fs, scope, lp, inLoop, r)
    && HeadOf(b, fs0, fs, scope) && Slack(fs, scope) >= 0
    && if first then BlockStarted(b, scope, lp, r) && fs == fs0 && r == r0
       else PassRecorded(b, scope, lp, fs, r, around, noWrite) && Passed(b, lp, once, fs0, fs, r0, r, around, noWrite)
  }

  lemma FirstPass(b: Block, fs: FactVec, scope: set<Variable>, lp: seq<Variable>, inLoop: bool, once: bool, r: Records, around: Effect, noWrite: set<Variable>)
    requires BlockVisitable(b, fs, scope, lp, inLoop, r) && BlockStarted(b, scope, lp, r)
    ensures Iterating(b, scope, lp, inLoop, once, fs, fs, true, r, r, around, noWrite)
  {
    GraphBounded(fs, scope);
  }

  lemma HeadReached(b: Block, scope: set<Variable>, lp: seq<Variable>, inLoop: bool, once: bool, fs0: FactVec, last: FactVec, fs: FactVec, first: bool, r0: Records, r: Records, around: Effect, noWrite: set<Variable>)
    requires Iterating(b, scope, lp, inLoop, once, fs0, last, first, r0, r, around, noWrite) && FactsOk(fs, scope) && Below(last, fs, scope)
    requires fs == Fed(b, last, r)
    ensures HeadOf(b, fs0, fs, scope) && BlockVisitable(b, fs, scope, lp, inLoop, r)
    ensures Arrived(b, lp, once, first, fs0, fs, r0, r, around, noWrite)
  {
    BelowTransitive(fs0, last, fs, scope);
    if first {
      assert Rounds(b, lp, once, fs0, [fs], [r0], r0, around, noWrite);
    } else {
      PassedArrives(b, lp, once, fs0, last, r0, r, around, noWrite);
    }
  }

  lemma PassedArrives(b: Block, lp: seq<Variable>, once: bool, fs0: FactVec, last: FactVec, r0: Records, r: Records, around: Effect, noWrite: set<Variable>)
    requires Passed(b, lp, once, fs0, last, r0, r, around, noWrite)
    ensures Arrived(b, lp, once, false, fs0, Fed(b, last, r), r0, r, around, noWrite)
  {
    var first, m :| Arrived(b, lp, once, first, fs0, last, r0, m, around, noWrite)
      && ((once && first) || !Settled(b, last, m, around, noWrite)) && PassRan(b, lp, last, m, r, around, noWrite);
    var heads, rs :| Rounds(b, lp, once, fs0, heads, rs, r0, around, noWrite)
      && heads[|rs| - 1] == last && rs[|rs| - 1] == m && (first <==> |rs| == 1);
    RoundAdded(b, lp, once, fs0, heads, rs, r0, r, around, noWrite);
  }

  lemma RoundAdded(b: Block, lp: seq<Variable>, once: bool, fs0: FactVec, heads: seq<FactVec>, rs: seq<Records>, r0: Records, r: Records, around: Effect, noWrite: set<Variable>)
    requires Rounds(b, lp, once, fs0, heads, rs, r0, around, noWrite)
    requires NextRound(b, lp, once && |rs| == 1, heads[|rs| - 1], Fed(b, heads[|rs| - 1], r), rs[|rs| - 1], r, around, noWrite)
    ensures Rounds(b, lp, once, fs0, heads + [Fed(b, heads[|rs| - 1], r)], rs + [r], r0, around, noWrite)
  {
    var n := |rs|;
    var heads', rs' := heads + [Fed(b, heads[n - 1], r)], rs + [r];
    forall k | 0 <= k < n ensures NextRound(b, lp, once && k == 0, heads'[k], heads'[k + 1], rs'[k], rs'[k + 1], around, noWrite) {
      if k < n - 1 { assert NextRound(b, lp, once && k == 0, heads[k], heads[k + 1], rs[k], rs[k + 1], around, noWrite); }
    }
  }

  lemma PassedOnce(b: Block, scope: set<Variable>, lp: seq<Variable>, inLoop: bool, once: bool, first: bool, fs0: FactVec, fs: FactVec, r0: Records, r: Records, r': Records, around: Effect, noWrite: set<Variable>)
    requires BlockVisitable(b, fs, scope, lp, inLoop, r) && HeadOf(b, fs0, fs, scope) && Slack(fs, scope) >= 0
    requires OnlyTouched(r, r', BlockIds(b)) && OnlyTouched(r0, r', BlockIds(b)) && PassRecorded(b, scope, lp, fs, r', around, noWrite)
    requires Arrived(b, lp, once, first, fs0, fs, r0, r, around, noWrite) && PassRan(b, lp, fs, r, r', around, noWrite)
    requires (once && first) || !Settled(b, fs, r, around, noWrite)
    ensures Iterating(b, scope, lp, inLoop, once, fs0, fs, false, r0, r', around, noWrite)
  {}

  lemma FailsHere(b: Block, lp: seq<Variable>, once: bool, first: bool, i: nat, fs0: FactVec, fs: FactVec, r0: Records, r: Records, r': Records, around: Effect, noWrite: set<Variable>)
    requires Arrived(b, lp, once, first, fs0, fs, r0, r, around, noWrite) && PassFailed(b, lp, i, fs, r, r', around, noWrite)
    requires (once && first) || !Settled(b, fs, r, around, noWrite)
    ensures SearchFailed(b, lp, once, i, fs0, r0, r', around, noWrite)
  {
    var heads, rs :| Rounds(b, lp, once, fs0, heads, rs, r0, around, noWrite)
      && heads[|rs| - 1] == fs && rs[|rs| - 1] == r && (first <==> |rs| == 1);
    assert RoundFailed(b, lp, once && |rs| == 1, i, heads[|rs| - 1], rs[|rs| - 1], r', around, noWrite);
  }

  /** When the in-facts are the recorded ones again, the record is closed under the back edges. */
  lemma Stabilised(b: Block, scope: set<Variable>, lp: seq<Variable>, inLoop: bool, once: bool, fs0: FactVec, last: FactVec, fs: FactVec, first: bool, r0: Records, r: Records, around: Effect, noWrite: set<Variable>)
    requires Iterating(b, scope, lp, inLoop, once, fs0, last, first, r0, r, around, noWrite) && HeadOf(b, fs0, fs, scope)
    requires Arrived(b, lp, once, first, fs0, fs, r0, r, around, noWrite) && !(once && first)
    requires SameFactsSpec(fs, At(r.factsIn, b.id)) && Fits(EffectAt(r.stmEffect, b.id), around, noWrite)
    requires b.id in r.visited ==> AboveBackEdges(b, fs, scope, r.factsOut, r.cfgEdges)
    ensures BlockDone(b, fs0, At(r.factsOut, b.id), scope, lp, r, around, noWrite)
    ensures SearchRan(b, lp, once, fs0, r0, r, around, noWrite)
  {
    SettledRan(b, lp, once, first, fs0, fs, r0, r, around, noWrite);
    var head, out := At(r.factsIn, b.id), At(r.factsOut, b.id);
    assert b.id in BlockIds(b);
    SameMeansRecorded(fs, b.id, scope, r.factsIn);
    SameFactsBelow(fs, head, scope);
    BelowTransitive(fs0, fs, head, scope);
    if b.id in r.visited {
      forall id | id in Sources(r.cfgEdges, b.id, false, true) ensures Below(At(r.factsOut, id), head, scope) {
        BelowTransitive(At(r.factsOut, id), fs, head, scope);
      }
    }
    WeakerBlockStart(b, scope, lp, fs0, head, out, r.factsOut);
  }

  lemma SettledRan(b: Block, lp: seq<Variable>, once: bool, first: bool, fs0: FactVec, fs: FactVec, r0: Records, r: Records, around: Effect, noWrite: set<Variable>)
    requires Arrived(b, lp, once, first, fs0, fs, r0, r, around, noWrite) && !(once && first) && Settled(b, fs, r, around, noWrite)
    ensures SearchRan(b, lp, once, fs0, r0, r, around, noWrite)
  {
    var heads, rs :| Rounds(b, lp, once, fs0, heads, rs, r0, around, noWrite)
      && heads[|rs| - 1] == fs && rs[|rs| - 1] == r && (first <==> |rs| == 1);
    assert Settled(b, heads[|rs| - 1], r, around, noWrite);
  }

  lemma NextVisitable(b: Block, i: nat, head: FactVec, fs: FactVec, scope: set<Variable>, lp: seq<Variable>, inLoop: bool, r0: Records, r: Records, around: Effect, noWrite: set<Variable>)
    requires BlockVisitable(b, head, scope, lp, inLoop, r0) && i < |b.stms| && OnlyTouched(r0, r, SeqIds(b.stms))
    requires PrefixDone(b, i, scope, lp, head, fs, r0, r, around, noWrite)
    ensures Visitable(b.stms[i], fs, scope + LocalCells(b), DeclVars(b.locals) + lp, inLoop, r)
  {
    ScopeGrows(b, scope);
    IdsInSeq(b.stms, i);
    ReadyInside(b, i, scope, r.factsIn);
  }

  lemma ReadyInside(b: Block, i: nat, scope: set<Variable>, fi: FactMap)
    requires i < |b.stms| && ScopeOk(scope) && LocalsOk(b, scope) && Ready(BlockIds(b), scope, fi)
    ensures Ready(Ids(b.stms[i]), scope + LocalCells(b), fi)
  {
    ScopeGrows(b, scope);
    IdsInSeq(b.stms, i);
  }

  lemma JumpVisited(x: Stmt, scope: set<Variable>, lp: seq<Variable>, fs: FactVec, c: Context, fi: FactMap, fo: FactMap, edges: seq<Edge>)
    requires (x.Break? || x.Continue?) && ExprOk(x.test, scope) && FactsOk(fs, scope) && NoSpecial(lp) && ScopeOk(scope)
    requires Visit(x.test, fs, c).Some?
    ensures VisitedOk(x, scope, lp, fs, Visit(x.test, fs, c).value.0, fi, fo, edges)
  {
    var out := Visit(x.test, fs, c).value.0;
    forall fo' | At(fo', x.id) == OutOfScope(out, lp) ensures StmtSound(x, scope, lp, fs, out, fo') {
      JumpSound(x, scope, lp, fs, c, fo');
    }
  }

  /** A jump inside a block has recorded facts of the scope around the loop body. */
  lemma {:induction false} BlockJumpRecord(b: Block, sig: Signal, id: nat, scope: set<Variable>, lp: seq<Variable>, fi: FactMap, fo: FactMap, edges: seq<Edge>, inLoop: bool)
    requires InnerMemo(b, scope, lp, fi, fo, edges) && BlockOk(b, scope, inLoop) && id in SeqJumps(b.stms, sig)
    ensures RecordOk(At(fo, id), scope - CellsOf(lp))
    decreases b
  {
    var i :| 0 <= i < |b.stms| && id in Jumps(b.stms[i], sig);
    var x := b.stms[i];
    var scope', lp' := scope + LocalCells(b), DeclVars(b.locals) + lp;
    JumpRecord(x, sig, id, scope', lp', fi, fo, edges, inLoop);
    LeavesLocals(b, scope, lp);
  }

  lemma LeavesLocals(b: Block, scope: set<Variable>, lp: seq<Variable>)
    requires LocalsOk(b, scope)
    ensures scope + LocalCells(b) - CellsOf(DeclVars(b.locals) + lp) == scope - CellsOf(lp)
  {}

  lemma {:induction false} JumpRecord(x: Stmt, sig: Signal, id: nat, scope: set<Variable>, lp: seq<Variable>, fi: FactMap, fo: FactMap, edges: seq<Edge>, inLoop: bool)
    requires Memo(x, scope, lp, fi, fo, edges) && StmtOk(x, scope, inLoop) && id in Jumps(x, sig)
    ensures RecordOk(At(fo, id), scope - CellsOf(lp))
    decreases x
  {
    if x.If? {
      var inner := if id in BlockJumps(x.thn, sig) then x.thn else x.els;
      assert id in SeqJumps(inner.stms, sig);
      BlockJumpRecord(inner, sig, id, scope, lp, fi, fo, edges, inLoop);
    }
  }

  /** The records of the back edges of a block are facts of the scope around it. */
  lemma BackSourcesOk(b: Block, scope: set<Variable>, lp: seq<Variable>, fi: FactMap, fo: FactMap, edges: seq<Edge>, inLoop: bool)
    requires InnerMemo(b, scope, lp, fi, fo, edges) && RecordOk(At(fo, b.id), scope) && BlockEdgesOk(b, edges)
    requires BlockOk(b, scope, inLoop)
    requires lp != [] ==> Sources(edges, b.id, false, true) == []
    ensures SourcesOk(Sources(edges, b.id, false, true), fo, scope)
  {
    var srcs := Sources(edges, b.id, false, true);
    forall id | id in srcs ensures RecordOk(At(fo, id), scope) {
      assert id in ToSet(srcs);
      if id != b.id {
        BlockJumpRecord(b, Continued, id, scope, lp, fi, fo, edges, inLoop);
        assert lp == [] && scope - CellsOf(lp) == scope;
      }
    }
  }

  lemma BreaksRecorded(x: Stmt, scope: set<Variable>, fi: FactMap, fo: FactMap, edges: seq<Edge>)
    requires x.For? && LoopEdges(x, edges) && BlockOk(x.body, scope, true) && InnerMemo(x.body, scope, [], fi, fo, edges)
    ensures SourcesOk(Sources(edges, x.id, true, false), fo, scope)
  {
    var srcs := Sources(edges, x.id, true, false);
    forall id | id in srcs ensures RecordOk(At(fo, id), scope) {
      assert id in ToSet(srcs);
      BlockJumpRecord(x.body, Broke, id, scope, [], fi, fo, edges, true);
      assert scope - CellsOf([]) == scope;
    }
  }

  /** What holds after the body of a loop has reached its fixed point. */
  lemma ForDone(x: Stmt, scope: set<Variable>, lp: seq<Variable>, fs: FactVec, c: Context, fi: FactMap, fo: FactMap, edges: seq<Edge>)
    requires x.For? && StmtOk(x, scope, true) && EdgesOk(x, edges) && FactsOk(fs, scope) && Visit(x.init, fs, c).Some?
    requires x.body.id in fi && BlockMemo(x.body, scope, [], fi, fo, edges)
    requires Below(Visit(x.init, fs, c).value.0, At(fi, x.body.id), scope)
    ensures var out := JumpMergedAll(At(fi, x.body.id), Sources(edges, x.id, true, false), fo);
      FactsOk(out, scope) && StmtSound(x, scope, lp, fs, out, fo)
  {
    var srcs, head := Sources(edges, x.id, true, false), At(fi, x.body.id);
    var out := JumpMergedAll(head, srcs, fo);
    BreaksRecorded(x, scope, fi, fo, edges);
    JumpMergedAllMeaning(head, srcs, fo, scope);
    ClosedLoop(x, scope, fi, fo, edges);
    forall id | id in SeqJumps(x.body.stms, Broke) ensures Below(At(fo, id), out, scope) {
      assert id in ToSet(srcs);
      assert id in srcs;
    }
    ForSound(x, scope, lp, fs, c, head, At(fo, x.body.id), out, fo);
  }

  lemma OthersKept(b: Block, i: nat, scope: set<Variable>, lp: seq<Variable>, r: Records, r': Records)
    requires i < |b.stms| && BlockDistinct(b) && BlockEdgesOk(b, r.cfgEdges)
    requires InnerMemo(b, scope, lp, r.factsIn, r.factsOut, r.cfgEdges) && OnlyTouched(r, r', Ids(b.stms[i]))
    requires Memo(b.stms[i], scope + LocalCells(b), DeclVars(b.locals) + lp, r'.factsIn, r'.factsOut, r'.cfgEdges)
    ensures InnerMemo(b, scope, lp, r'.factsIn, r'.factsOut, r'.cfgEdges)
  {
    forall j | 0 <= j < |b.stms|
      ensures Memo(b.stms[j], scope + LocalCells(b), DeclVars(b.locals) + lp, r'.factsIn, r'.factsOut, r'.cfgEdges)
    {
      if j != i {
        assert Ids(b.stms[j]) !! Ids(b.stms[i]);
        MemoFrame(b.stms[j], scope + LocalCells(b), DeclVars(b.locals) + lp, r.factsIn, r.factsOut, r'.factsIn, r'.factsOut, r.cfgEdges);
      }
    }
  }

  lemma StepSound(xs: seq<Stmt>, i: nat, scope: set<Variable>, lp: seq<Variable>, entry: FactVec, mid: FactVec, out: FactVec, fo: FactMap, fo': FactMap)
    requires i < |xs| && forall j, k :: 0 <= j < k < |xs| ==> Ids(xs[j]) !! Ids(xs[k])
    requires SeqSound(xs[..i], scope, lp, entry, mid, fo) && StmtSound(xs[i], scope, lp, mid, out, fo')
    requires Outside(fo, fo', Ids(xs[i]))
    ensures SeqSound(xs[..i + 1], scope, lp, entry, out, fo')
  {
    forall id | id in SeqIds(xs[..i]) ensures At(fo, id) == At(fo', id) {
      var j :| 0 <= j < i && id in Ids(xs[..i][j]);
      assert Ids(xs[j]) !! Ids(xs[i]);
    }
    SeqSoundFrame(xs[..i], scope, lp, entry, mid, fo, fo');
    SeqSoundSnoc(xs[..i], xs[i], scope, lp, entry, mid, out, fo');
    assert xs[..i + 1] == xs[..i] + [xs[i]];
  }

  ghost predicate EachFits(m: map<nat, Effect>, xs: seq<Stmt>, around: Effect, noWrite: set<Variable>) {
    forall j :: 0 <= j < |xs| ==> Fits(EffectAt(m, xs[j].id), around, noWrite)
  }

  lemma StepFits(xs: seq<Stmt>, i: nat, m: map<nat, Effect>, m': map<nat, Effect>, around: Effect, noWrite: set<Variable>)
    requires i < |xs| && forall j, k :: 0 <= j < k < |xs| ==> Ids(xs[j]) !! Ids(xs[k])
    requires EachFits(m, xs[..i], around, noWrite) && EffectsOutside(m, m', Ids(xs[i]))
    requires Fits(EffectAt(m', xs[i].id), around, noWrite)
    ensures EachFits(m', xs[..i + 1], around, noWrite)
  {
    forall j | 0 <= j < i ensures Fits(EffectAt(m', xs[j].id), around, noWrite) {
      IdsInSeq(xs, j);
      assert Ids(xs[j]) !! Ids(xs[i]) && xs[..i][j] == xs[j];
    }
  }

  /** The first `i` statements of a block have been analysed, in a pass from `head`. */
  ghost predicate PrefixDone(b: Block, i: nat, scope: set<Variable>, lp: seq<Variable>, head: FactVec, out: FactVec, r0: Records, r: Records, around: Effect, noWrite: set<Variable>)
    requires i <= |b.stms|
  {
    && FactsOk(out, scope + LocalCells(b)) && InnerMemo(b, scope, lp, r.factsIn, r.factsOut, r.cfgEdges)
    && SeqSound(b.stms[..i], scope + LocalCells(b), DeclVars(b.locals) + lp, AddedLocals(head, b.locals), out, r.factsOut)
    && EachFits(r.stmEffect, b.stms[..i], around, noWrite) && Reached(b, lp, i, head, out, r0, r, around, noWrite)
  }

  lemma NoneDone(b: Block, scope: set<Variable>, lp: seq<Variable>, head: FactVec, r: Records, around: Effect, noWrite: set<Variable>)
    requires FactsOk(AddedLocals(head, b.locals), scope + LocalCells(b)) && InnerMemo(b, scope, lp, r.factsIn, r.factsOut, r.cfgEdges)
    ensures PrefixDone(b, 0, scope, lp, head, AddedLocals(head, b.locals), r, r, around, noWrite)
  {
    EmptySeqSound(scope + LocalCells(b), DeclVars(b.locals) + lp, AddedLocals(head, b.locals), r.factsOut);
    assert b.stms[..0] == [];
    assert Through(b, lp, head, [AddedLocals(head, b.locals)], [r], r, around, noWrite);
  }

  lemma ReachedNext(b: Block, lp: seq<Variable>, i: nat, head: FactVec, mid: FactVec, gs: FactVec, r0: Records, r: Records, r': Records, around: Effect, noWrite: set<Variable>)
    requires i < |b.stms| && Reached(b, lp, i, head, mid, r0, r, around, noWrite)
    requires Ran(b.stms[i], DeclVars(b.locals) + lp, mid, gs, r, r', around, noWrite)
    ensures Reached(b, lp, i + 1, head, gs, r0, r', around, noWrite)
  {
    var trail, ms :| Through(b, lp, head, trail, ms, r0, around, noWrite) && |ms| == i + 1 && trail[i] == mid && ms[i] == r;
    var trail', ms' := trail + [gs], ms + [r'];
    forall k | 0 <= k < |ms'| - 1
      ensures Ran(b.stms[k], DeclVars(b.locals) + lp, trail'[k], trail'[k + 1], ms'[k], ms'[k + 1], around, noWrite)
    {
      if k < i { assert Ran(b.stms[k], DeclVars(b.locals) + lp, trail[k], trail[k + 1], ms[k], ms[k + 1], around, noWrite); }
    }
    assert Through(b, lp, head, trail', ms', r0, around, noWrite);
  }

  lemma ReachedFails(b: Block, lp: seq<Variable>, i: nat, head: FactVec, mid: FactVec, r0: Records, r: Records, r': Records, around: Effect, noWrite: set<Variable>)
    requires i < |b.stms| && Reached(b, lp, i, head, mid, r0, r, around, noWrite)
    requires Failed(b.stms[i], DeclVars(b.locals) + lp, mid, r, r', around, noWrite)
    ensures PassFailed(b, lp, i, head, r0, r', around, noWrite)
  {
    var trail, ms :| Through(b, lp, head, trail, ms, r0, around, noWrite) && |ms| == i + 1 && trail[i] == mid && ms[i] == r;
    assert Failed(b.stms[i], DeclVars(b.locals) + lp, trail[i], ms[i], r', around, noWrite);
  }

  lemma ReachedEnd(b: Block, lp: seq<Variable>, head: FactVec, post: FactVec, r0: Records, r: Records, around: Effect, noWrite: set<Variable>)
    requires Reached(b, lp, |b.stms|, head, post, r0, r, around, noWrite)
    ensures PassRan(b, lp, head, r0, PassStored(r, b, head, post), around, noWrite)
  {
    var n := |b.stms|;
    var trail, ms :| Through(b, lp, head, trail, ms, r0, around, noWrite) && |ms| == n + 1 && trail[n] == post && ms[n] == r;
    assert PassStored(r, b, head, post) == PassStored(ms[n], b, head, trail[n]);
  }

  /** One more statement of a block has been analysed. */
  lemma StepDone(b: Block, i: nat, scope: set<Variable>, lp: seq<Variable>, inLoop: bool, head: FactVec, mid: FactVec, ok: bool, out: FactVec, r0: Records, r: Records, r': Records, around: Effect, noWrite: set<Variable>)
    requires i < |b.stms| && BlockVisitable(b, head, scope, lp, inLoop, r0) && OnlyTouched(r0, r, SeqIds(b.stms))
    requires PrefixDone(b, i, scope, lp, head, mid, r0, r, around, noWrite)
    requires StmtAnalysed(b.stms[i], mid, ok, out, scope + LocalCells(b), DeclVars(b.locals) + lp, r, r', around, noWrite)
    ensures OnlyTouched(r0, r', SeqIds(b.stms))
    ensures ok ==> PrefixDone(b, i + 1, scope, lp, head, out, r0, r', around, noWrite)
    ensures !ok ==> PassFailed(b, lp, i, head, r0, r', around, noWrite)
  {
    IdsInSeq(b.stms, i);
    TouchedStep(r0, r, r', SeqIds(b.stms), Ids(b.stms[i]));
    if ok {
      ReachedNext(b, lp, i, head, mid, out, r0, r, r', around, noWrite);
      OthersKept(b, i, scope, lp, r, r');
      StepSound(b.stms, i, scope + LocalCells(b), DeclVars(b.locals) + lp, AddedLocals(head, b.locals), mid, out, r.factsOut, r'.factsOut);
      StepFits(b.stms, i, r.stmEffect, r'.stmEffect, around, noWrite);
    } else {
      ReachedFails(b, lp, i, head, mid, r0, r, r', around, noWrite);
    }
  }

  lemma {:induction false} EffectsFit(xs: seq<Stmt>, m: map<nat, Effect>, around: Effect, noWrite: set<Variable>)
    requires EachFits(m, xs, around, noWrite)
    ensures Fits(EffectsOf(xs, m), around, noWrite)
  {
    if xs != [] {
      var n := |xs| - 1;
      assert forall j :: 0 <= j < n ==> xs[..n][j] == xs[j];
      EffectsFit(xs[..n], m, around, noWrite);
    }
  }

  lemma EnterBlock(b: Block, scope: set<Variable>, fs: FactVec)
    requires ScopeOk(scope) && LocalsOk(b, scope) && FactsOk(fs, scope)
    ensures FactsOk(AddedLocals(fs, b.locals), scope + LocalCells(b))
  {
    EnterFacts(fs, b, scope);
  }

  lemma StoredFacts(r: Records, b: Block, fs: FactVec, post: FactVec, around: Effect, noWrite: set<Variable>)
    requires EachFits(r.stmEffect, b.stms, around, noWrite)
    ensures var r' := PassStored(r, b, fs, post);
      && OnlyTouched(r, r', {b.id}) && b.id in r'.visited && b.id in r'.factsIn && At(r'.factsIn, b.id) == fs
      && At(r'.factsOut, b.id) == OutOfScope(post, DeclVars(b.locals)) && Fits(r'.Effect(b.id), around, noWrite)
  {
    EffectsFit(b.stms, r.stmEffect, around, noWrite);
  }

  /** What one complete pass over a block has established. */
  lemma PassDone(b: Block, scope: set<Variable>, lp: seq<Variable>, inLoop: bool, fs: FactVec, post: FactVec, r0: Records, r: Records, r': Records, around: Effect, noWrite: set<Variable>)
    requires BlockVisitable(b, fs, scope, lp, inLoop, r0) && OnlyTouched(r0, r, SeqIds(b.stms)) && OnlyTouched(r, r', {b.id})
    requires PrefixDone(b, |b.stms|, scope, lp, fs, post, r0, r, around, noWrite)
    requires b.id in r'.visited && b.id in r'.factsIn && At(r'.factsIn, b.id) == fs
    requires At(r'.factsOut, b.id) == OutOfScope(post, DeclVars(b.locals)) && Fits(r'.Effect(b.id), around, noWrite)
    ensures OnlyTouched(r0, r', BlockIds(b)) && PassRecorded(b, scope, lp, fs, r', around, noWrite)
  {
    TouchedStep(r0, r0, r, BlockIds(b), SeqIds(b.stms));
    TouchedStep(r0, r, r', BlockIds(b), {b.id});
    assert b.stms[..|b.stms|] == b.stms;
    ScopeGrows(b, scope);
    BlockFromSeq(b, scope, lp, fs, post, r.factsOut);
    BlockSoundFrame(b, scope, lp, fs, OutOfScope(post, DeclVars(b.locals)), r.factsOut, r'.factsOut);
    ExitFacts(post, DeclVars(b.locals), scope + LocalCells(b));
    InnerMemoFrame(b, scope, lp, r.factsIn, r.factsOut, r'.factsIn, r'.factsOut, r.cfgEdges);
  }

  // ---------- whole programs ----------

  /** Where nothing is recorded nothing is promised. */
  lemma {:induction false} FreshMemo(x: Stmt, scope: set<Variable>, lp: seq<Variable>, fi: FactMap, fo: FactMap, edges: seq<Edge>)
    requires Ids(x) !! fi.Keys && Ids(x) !! fo.Keys
    ensures Memo(x, scope, lp, fi, fo, edges)
    decreases x, 0
  {
    assert x.id in Ids(x);
    match x
    case If(_, _, thn, els) =>
      FreshBlockMemo(thn, scope, lp, fi, fo, edges);
      FreshBlockMemo(els, scope, lp, fi, fo, edges);
    case For(_, _, _, _, _, body) => FreshBlockMemo(body, scope, [], fi, fo, edges);
    case _ =>
  }

  lemma {:induction false} FreshBlockMemo(b: Block, scope: set<Variable>, lp: seq<Variable>, fi: FactMap, fo: FactMap, edges: seq<Edge>)
    requires BlockIds(b) !! fi.Keys && BlockIds(b) !! fo.Keys
    ensures BlockMemo(b, scope, lp, fi, fo, edges)
    decreases b, 0
  {
    assert b.id in BlockIds(b);
    forall i | 0 <= i < |b.stms|
      ensures Memo(b.stms[i], scope + LocalCells(b), DeclVars(b.locals) + lp, fi, fo, edges)
    {
      IdsInSeq(b.stms, i);
      FreshMemo(b.stms[i], scope + LocalCells(b), DeclVars(b.locals) + lp, fi, fo, edges);
    }
  }

  /** The whole analysis: a function body accepted from the facts of its surroundings never runs
      into undefined behaviour, for any number of loop iterations and from any covered store. The
      manager may be new or hold the sound records of earlier visits; if no pointer is in scope, it
      must hold some for every program point. */
  method AnalyseBody(fm: FactMgr, b: Block, inputs: FactVec, noWrite: set<Variable>, ghost scope: set<Variable>)
    returns (ok: bool, outputs: FactVec)
    requires BlockVisitable(b, inputs, scope, [], false, fm.View())
    requires BlockMemo(b, scope, [], fm.factsIn, fm.factsOut, fm.cfgEdges)
    modifies fm
    ensures ok ==> FactsOk(outputs, scope) && BlockMemo(b, scope, [], fm.factsIn, fm.factsOut, fm.cfgEdges)
    ensures ok ==> Accounted(b, inputs, outputs, scope)
    ensures ok ==> BlockRan(b, [], inputs, outputs, old(fm.View()), fm.View(), NO_EFFECT, noWrite)
    ensures !ok ==> BlockFailed(b, [], inputs, old(fm.View()), fm.View(), NO_EFFECT, noWrite)
  {
    var cg := new CGContext(NO_EFFECT, noWrite);
    ok, outputs := fm.VisitBlock(b, inputs, cg, [], scope, false);
    if ok { RunsAccounted(b, inputs, outputs, scope, fm.factsOut); }
  }

  /** A new manager suffices if a pointer is in scope. */
  method AnalyseNew(b: Block, inputs: FactVec, edges: seq<Edge>, noWrite: set<Variable>, ghost scope: set<Variable>)
    returns (ok: bool, outputs: FactVec)
    requires BlockOk(b, scope, false) && BlockDistinct(b) && BlockEdgesOk(b, edges)
    requires ScopeOk(scope) && PtrVars(scope) != {} && FactsOk(inputs, scope)
    ensures ok ==> FactsOk(outputs, scope) && Accounted(b, inputs, outputs, scope)
  {
    var fm := new FactMgr(edges);
    FreshBlockMemo(b, scope, [], map[], map[], edges);
    ok, outputs := AnalyseBody(fm, b, inputs, noWrite, scope);
  }

  /** No run of `b` from a store that `fs` covers is undefined, and `out` covers where it ends. */
  ghost predicate Accounted(b: Block, fs: FactVec, out: FactVec, scope: set<Variable>) {
    forall s: Store, n {:trigger ExecBlock(b, s, n)} :: Start(s, scope, fs) ==>
      match ExecBlock(b, s, n)
      case Stuck => false
      case OutOfFuel => true
      case Done(_, t) => t.Keys == scope && StoreOk(t) && Covers(out, t)
  }

  lemma RunsAccounted(b: Block, fs: FactVec, out: FactVec, scope: set<Variable>, fo: FactMap)
    requires BlockOk(b, scope, false) && BlockSound(b, scope, [], fs, out, fo)
    ensures Accounted(b, fs, out, scope)
  {
    NoJumpsOutside(b, scope);
    forall s: Store, n | Start(s, scope, fs)
      ensures ExecBlock(b, s, n) != Stuck
      ensures ExecBlock(b, s, n).Done? ==> Start(ExecBlock(b, s, n).st, scope, out)
    {
      assert ResultOk(ExecBlock(b, s, n), scope, [], out, ExitsOfSeq(b.stms), fo);
    }
  }

  /** Outside loops there is nothing to break out of. */
  lemma {:induction false} NoJumpsOutside(b: Block, scope: set<Variable>)
    requires BlockOk(b, scope, false)
    ensures SeqJumps(b.stms, Broke) == {} && SeqJumps(b.stms, Continued) == {}
    decreases b
  {
    forall i | 0 <= i < |b.stms| ensures Jumps(b.stms[i], Broke) == {} && Jumps(b.stms[i], Continued) == {} {
      var x := b.stms[i];
      assert StmtOk(x, scope + LocalCells(b), false);
      if x.If? {
        NoJumpsOutside(x.thn, scope + LocalCells(b));
        NoJumpsOutside(x.els, scope + LocalCells(b));
      }
    }
  }
}
