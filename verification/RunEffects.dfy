/** The recorded effects cover every access of every run. */
module RunEffects {
  // The effect recorded for a function body stands for the function wherever it is called. Whatever
  // a run from a covered store reads or writes is in it, for any number of loop iterations; so a run
  // in surroundings that the record fits clashes with none of their accesses. The test and increment
  // of a `for`, which are not expressions of the model, count as no access.

  import opened Collections
  import opened Variables
  import opened Facts
  import opened Expressions
  import opened CGContexts
  import opened ExprSound
  import OrderIndependence
  import opened Scopes
  import opened Statements
  import opened ScopeSound
  import opened Analysis
  import opened FixedPoint
  import opened AnalysisRuns
  import opened RecordedEffects
  import opened Acceptance
  import opened LinkedRecords
  import opened RunAccesses
  import FactMgrs

  /** Every access is recorded in `e`. */
  ghost predicate Within(a: Accesses, e: Effect) {
    (forall c :: c in a.rd ==> c.Coll() in e.readVars) && forall c :: c in a.wr ==> c.Coll() in e.writeVars
  }

  lemma WithinPart(a: Accesses, part: Effect, whole: Effect)
    requires Within(a, part) && Part(part, whole)
    ensures Within(a, whole)
  {}

  // ---------- records that describe runs ----------

  /** What the analysis has established about the records inside `x`. */
  ghost predicate Described(x: Stmt, scope: set<Variable>, lp: seq<Variable>, inLoop: bool, p: Variable, r: Records) {
    && StmtOk(x, scope, inLoop) && ScopeOk(scope) && FactMgrs.EdgesOk(x, r.cfgEdges)
    && FactMgrs.Memo(x, scope, lp, r.factsIn, r.factsOut, r.cfgEdges) && Linked(x, p, r) && PartsWithin(x, r)
  }

  ghost predicate BlockDescribed(b: Block, scope: set<Variable>, lp: seq<Variable>, inLoop: bool, p: Variable, r: Records) {
    && BlockOk(b, scope, inLoop) && ScopeOk(scope) && FactMgrs.BlockEdgesOk(b, r.cfgEdges)
    && FactMgrs.BlockMemo(b, scope, lp, r.factsIn, r.factsOut, r.cfgEdges) && AllLinked(b, p, r) && BlockPartsWithin(b, r)
  }

  lemma StmtDescribed(b: Block, i: nat, scope: set<Variable>, lp: seq<Variable>, inLoop: bool, p: Variable, r: Records)
    requires i < |b.stms| && BlockDescribed(b, scope, lp, inLoop, p, r)
    ensures Described(b.stms[i], scope + LocalCells(b), DeclVars(b.locals) + lp, inLoop, p, r)
    ensures Part(r.Effect(b.stms[i].id), r.Effect(b.id))
  {
    FactMgrs.ScopeGrows(b, scope);
    assert FactMgrs.InnerMemo(b, scope, lp, r.factsIn, r.factsOut, r.cfgEdges);
    assert EachLinked(b, p, r);
  }

  lemma BranchDescribed(x: Stmt, b: Block, scope: set<Variable>, lp: seq<Variable>, inLoop: bool, p: Variable, r: Records)
    requires x.If? && (b == x.thn || b == x.els) && Described(x, scope, lp, inLoop, p, r)
    ensures BlockDescribed(b, scope, lp, inLoop, p, r) && Part(r.Effect(b.id), r.Effect(x.id))
    ensures x.id in r.factsIn ==> PartLinked(x, b, r)
  {
    assert InnerLinked(x, p, r) && StmtLinked(x, p, r);
  }

  lemma BodyDescribed(x: Stmt, scope: set<Variable>, lp: seq<Variable>, inLoop: bool, p: Variable, r: Records)
    requires x.For? && Described(x, scope, lp, inLoop, p, r)
    ensures BlockDescribed(x.body, scope, [], true, p, r) && Part(r.Effect(x.body.id), r.Effect(x.id))
    ensures x.id in r.factsIn ==> PartLinked(x, x.body, r)
  {
    assert InnerLinked(x, p, r) && StmtLinked(x, p, r);
  }

  lemma EnteredStart(fs: FactVec, rec: FactVec, s: Store, scope: set<Variable>)
    requires Entered(fs, rec) && WellFormed(rec) && Start(s, scope, fs)
    ensures Start(s, scope, rec)
  {
    var head :| Grown(fs, head) && SameFactsSpec(head, rec);
    forall c | c in s && c.IsPointer() ensures CoveredAt(head, s, c) {
      assert CoveredAt(fs, s, c);
      InToSet(Pointees(fs, c.Coll()), s[c].target.Coll());
      InToSet(Pointees(head, c.Coll()), s[c].target.Coll());
    }
    SameFactsBelow(head, rec, scope);
    assert Start(s, scope, head);
  }

  /** The expression of a statement: its accesses are recorded, and the facts after it cover the store. */
  lemma ExprWithin(x: Stmt, scope: set<Variable>, r: Records, s: Store)
    requires ExprOk(FirstExpr(x), scope) && ScopeOk(scope) && FactsOk(At(r.factsIn, x.id), scope) && ExprRecorded(x, r)
    requires Start(s, scope, At(r.factsIn, x.id))
    ensures Eval(FirstExpr(x), s).Some? && Within(OfExpr(FirstExpr(x), s), r.Effect(x.id))
    ensures Start(Eval(FirstExpr(x), s).value.st, scope, FactsThere(FirstExpr(x), At(r.factsIn, x.id)))
    ensures FactsOk(FactsThere(FirstExpr(x), At(r.factsIn, x.id)), scope)
  {
    var e, fs := FirstExpr(x), At(r.factsIn, x.id);
    ExprRun(e, fs, ALONE, scope, s);
    OrderIndependence.VisitSound(e, fs, ALONE, s);
    VisitScoped(e, fs, ALONE, scope);
    var own := Own(e, fs).value.1.accum;
    assert Within(OfExpr(e, s), own);
    WithinPart(OfExpr(e, s), own, r.Effect(x.id));
  }

  /** Whatever a run of a statement from a covered store accesses is recorded for it. */
  lemma {:induction false} RunWithin(x: Stmt, scope: set<Variable>, lp: seq<Variable>, inLoop: bool, p: Variable, r: Records, s: Store, n: nat)
    requires Described(x, scope, lp, inLoop, p, r) && x.id in r.factsIn && FactsOk(At(r.factsIn, x.id), scope)
    requires Start(s, scope, At(r.factsIn, x.id))
    ensures Within(Touched(x, s, n), r.Effect(x.id))
    decreases x, n, 1
  {
    assert ExprOk(FirstExpr(x), scope);
    ExprWithin(x, scope, r, s);
    var o := Eval(FirstExpr(x), s).value;
    match x
    case If(_, _, thn, els) =>
      BranchWithin(x, if Truth(o.fp.val) then thn else els, scope, lp, inLoop, p, r, o.st, n);
    case For(_, _, _, _, _, body) =>
      BodyEntered(x, scope, lp, inLoop, p, r, o.st);
      LoopWithin(x, scope, lp, inLoop, p, r, o.st, n);
    case _ =>
  }

  lemma {:induction false} BranchWithin(x: Stmt, b: Block, scope: set<Variable>, lp: seq<Variable>, inLoop: bool, p: Variable, r: Records, s: Store, n: nat)
    requires x.If? && (b == x.thn || b == x.els) && Described(x, scope, lp, inLoop, p, r) && x.id in r.factsIn
    requires Start(s, scope, FactsThere(x.test, At(r.factsIn, x.id)))
    ensures Within(TouchedBlock(b, s, n), r.Effect(x.id))
    decreases x, n, 0
  {
    BranchDescribed(x, b, scope, lp, inLoop, p, r);
    EnteredStart(FactsThere(x.test, At(r.factsIn, x.id)), At(r.factsIn, b.id), s, scope);
    BlockWithin(b, scope, lp, inLoop, p, r, s, n);
    WithinPart(TouchedBlock(b, s, n), r.Effect(b.id), r.Effect(x.id));
  }

  lemma BodyEntered(x: Stmt, scope: set<Variable>, lp: seq<Variable>, inLoop: bool, p: Variable, r: Records, s: Store)
    requires x.For? && Described(x, scope, lp, inLoop, p, r) && x.id in r.factsIn
    requires Start(s, scope, FactsThere(x.init, At(r.factsIn, x.id)))
    ensures x.body.id in r.factsIn && Start(s, scope, At(r.factsIn, x.body.id))
  {
    BodyDescribed(x, scope, lp, inLoop, p, r);
    EnteredStart(FactsThere(x.init, At(r.factsIn, x.id)), At(r.factsIn, x.body.id), s, scope);
  }

  lemma {:induction false} LoopWithin(x: Stmt, scope: set<Variable>, lp: seq<Variable>, inLoop: bool, p: Variable, r: Records, s: Store, n: nat)
    requires x.For? && Described(x, scope, lp, inLoop, p, r) && x.body.id in r.factsIn && Start(s, scope, At(r.factsIn, x.body.id))
    ensures Within(TouchedLoop(x, s, n), r.Effect(x.id))
    decreases x, n, 0
  {
    if n > 0 {
      var q := ExecBlock(x.body, s, n);
      BodyWithin(x, scope, lp, inLoop, p, r, s, n);
      if GoesOn(x, q) {
        NextIteration(x, scope, lp, inLoop, p, r, s, n);
        LoopWithin(x, scope, lp, inLoop, p, r, Next(x, q), n - 1);
      }
      TouchedAgain(x, s, n, r.Effect(x.id));
    }
  }

  lemma {:induction false} BodyWithin(x: Stmt, scope: set<Variable>, lp: seq<Variable>, inLoop: bool, p: Variable, r: Records, s: Store, n: nat)
    requires x.For? && Described(x, scope, lp, inLoop, p, r) && x.body.id in r.factsIn && Start(s, scope, At(r.factsIn, x.body.id))
    ensures Within(TouchedBlock(x.body, s, n), r.Effect(x.id))
    decreases x.body, n, 2
  {
    BodyDescribed(x, scope, lp, inLoop, p, r);
    BlockWithin(x.body, scope, [], true, p, r, s, n);
    WithinPart(TouchedBlock(x.body, s, n), r.Effect(x.body.id), r.Effect(x.id));
  }

  lemma TouchedAgain(x: Stmt, s: Store, n: nat, e: Effect)
    requires x.For? && Within(TouchedBlock(x.body, s, n), e)
    requires var q := ExecBlock(x.body, s, n); GoesOn(x, q) && n > 0 ==> Within(TouchedLoop(x, Next(x, q), n - 1), e)
    ensures Within(TouchedLoop(x, s, n), e)
  {
    OneIteration(x, s, n);
  }

  /** Another iteration starts from a store that the record of the body covers. */
  lemma NextIteration(x: Stmt, scope: set<Variable>, lp: seq<Variable>, inLoop: bool, p: Variable, r: Records, s: Store, n: nat)
    requires x.For? && Described(x, scope, lp, inLoop, p, r) && x.body.id in r.factsIn && Start(s, scope, At(r.factsIn, x.body.id))
    requires GoesOn(x, ExecBlock(x.body, s, n))
    ensures Start(Next(x, ExecBlock(x.body, s, n)), scope, At(r.factsIn, x.body.id))
  {
    var head, q := At(r.factsIn, x.body.id), ExecBlock(x.body, s, n);
    BodyDescribed(x, scope, lp, inLoop, p, r);
    FactMgrs.ClosedLoop(x, scope, r.factsIn, r.factsOut, r.cfgEdges);
    IterationOk(x, scope, head, At(r.factsOut, x.body.id), r.factsOut, s, n);
    WriteNumber(head, q.st, x.iv, x.step(q.st[x.iv].n), scope);
  }

  lemma {:induction false} BlockWithin(b: Block, scope: set<Variable>, lp: seq<Variable>, inLoop: bool, p: Variable, r: Records, s: Store, n: nat)
    requires BlockDescribed(b, scope, lp, inLoop, p, r) && b.id in r.factsIn && Start(s, scope, At(r.factsIn, b.id))
    ensures Within(TouchedBlock(b, s, n), r.Effect(b.id))
    decreases b, n, 1
  {
    if b.stms != [] {
      EnterCovers(At(r.factsIn, b.id), b, s);
      EnterFacts(At(r.factsIn, b.id), b, scope);
      SeqWithin(b, 0, scope, lp, inLoop, p, r, Alloc(s, b.locals), n);
      assert b.stms[0..] == b.stms;
    }
  }

  /** The statements of `b` from number `i` on. */
  lemma {:induction false} SeqWithin(b: Block, i: nat, scope: set<Variable>, lp: seq<Variable>, inLoop: bool, p: Variable, r: Records, s: Store, n: nat)
    requires i < |b.stms| && BlockDescribed(b, scope, lp, inLoop, p, r) && b.id in r.factsIn
    requires FactsOk(Reaching(b, i, r), scope + LocalCells(b)) && Start(s, scope + LocalCells(b), Reaching(b, i, r))
    ensures Within(TouchedSeq(b.stms[i..], s, n), r.Effect(b.id))
    decreases b, n, 0, |b.stms| - i
  {
    var x, scope', lp' := b.stms[i], scope + LocalCells(b), DeclVars(b.locals) + lp;
    StepStart(b, i, scope, lp, inLoop, p, r, s);
    RunWithin(x, scope', lp', inLoop, p, r, s, n);
    WithinPart(Touched(x, s, n), r.Effect(x.id), r.Effect(b.id));
    var q := Exec(x, s, n);
    if q.Done? && q.sig == Normal && i + 1 < |b.stms| {
      StepEnd(x, scope', lp', inLoop, p, r, s, n);
      SeqWithin(b, i + 1, scope, lp, inLoop, p, r, q.st, n);
    }
    TouchedFrom(b.stms, i, s, n, r.Effect(b.id));
  }

  lemma TouchedFrom(xs: seq<Stmt>, i: nat, s: Store, n: nat, e: Effect)
    requires i < |xs| && Within(Touched(xs[i], s, n), e)
    requires var q := Exec(xs[i], s, n);
      q.Done? && q.sig == Normal && i + 1 < |xs| ==> Within(TouchedSeq(xs[i + 1..], q.st, n), e)
    ensures Within(TouchedSeq(xs[i..], s, n), e)
  {
    assert xs[i..][0] == xs[i] && xs[i..][1..] == xs[i + 1..];
    var q := Exec(xs[i], s, n);
    if q.Done? && q.sig == Normal {
      assert TouchedSeq(xs[i..], s, n) == Touched(xs[i], s, n).Plus(TouchedSeq(xs[i + 1..], q.st, n));
    } else {
      assert TouchedSeq(xs[i..], s, n) == Touched(xs[i], s, n).Plus(NO_ACCESS);
    }
  }

  /** A store that reaches a statement is covered by its record. */
  lemma StepStart(b: Block, i: nat, scope: set<Variable>, lp: seq<Variable>, inLoop: bool, p: Variable, r: Records, s: Store)
    requires i < |b.stms| && BlockDescribed(b, scope, lp, inLoop, p, r) && b.id in r.factsIn
    requires FactsOk(Reaching(b, i, r), scope + LocalCells(b)) && Start(s, scope + LocalCells(b), Reaching(b, i, r))
    ensures var x, scope' := b.stms[i], scope + LocalCells(b);
      && Described(x, scope', DeclVars(b.locals) + lp, inLoop, p, r) && x.id in r.factsIn
      && FactsOk(At(r.factsIn, x.id), scope') && Start(s, scope', At(r.factsIn, x.id)) && Part(r.Effect(x.id), r.Effect(b.id))
  {
    var x, scope' := b.stms[i], scope + LocalCells(b);
    assert StepLinked(b, i, r);
    StmtDescribed(b, i, scope, lp, inLoop, p, r);
    if !IsJump(x) { EnteredStart(Reaching(b, i, r), At(r.factsIn, x.id), s, scope'); }
  }

  /** Where a statement completes normally, the facts that reach the next one cover the store. */
  lemma StepEnd(x: Stmt, scope: set<Variable>, lp: seq<Variable>, inLoop: bool, p: Variable, r: Records, s: Store, n: nat)
    requires Described(x, scope, lp, inLoop, p, r) && x.id in r.factsIn && FactsOk(At(r.factsIn, x.id), scope)
    requires Start(s, scope, At(r.factsIn, x.id)) && Exec(x, s, n).Done? && Exec(x, s, n).sig == Normal
    ensures FactsOk(EndFacts(x, r), scope) && Start(Exec(x, s, n).st, scope, EndFacts(x, r))
  {
    if IsJump(x) {
      ExprWithin(x, scope, r, s);
    } else {
      assert FactMgrs.RecordSound(x, scope, lp, r.factsIn, r.factsOut);
      assert ResultOk(Exec(x, s, n), scope, lp, At(r.factsOut, x.id), ExitsOf(x), r.factsOut);
    }
  }

  // ---------- a whole function body ----------

  /** A pointer of the scope is declared nowhere inside. */
  lemma {:induction false} PointerNotInside(c: Variable, x: Stmt, scope: set<Variable>, inLoop: bool)
    requires StmtOk(x, scope, inLoop) && c in scope && c.IsCell()
    ensures NotInside(c.Coll(), x)
    decreases x, 1
  {
    match x
    case If(_, _, thn, els) =>
      PointerNotDeclared(c, thn, scope, inLoop);
      PointerNotDeclared(c, els, scope, inLoop);
    case For(_, _, _, _, _, body) => PointerNotDeclared(c, body, scope, true);
    case _ =>
  }

  lemma {:induction false} PointerNotDeclared(c: Variable, b: Block, scope: set<Variable>, inLoop: bool)
    requires BlockOk(b, scope, inLoop) && c in scope && c.IsCell()
    ensures NotDeclared(c.Coll(), b)
    decreases b, 0
  {
    assert c.Coll() in DeclVars(b.locals) ==> c in LocalCells(b);
    forall i | 0 <= i < |b.stms| ensures NotInside(c.Coll(), b.stms[i]) {
      PointerNotInside(c, b.stms[i], scope + LocalCells(b), inLoop);
    }
  }

  /** After a successful analysis the effect recorded for the body covers whatever any run of it accesses,
      if the records before were linked; `p` is a pointer in scope. */
  lemma AnalysedWithin(b: Block, p: Variable, inputs: FactVec, out: FactVec, r: Records, q: Records, around: Effect, noWrite: set<Variable>, scope: set<Variable>, s: Store, n: nat)
    requires BlockOk(b, scope, false) && BlockDistinct(b) && FactMgrs.BlockEdgesOk(b, q.cfgEdges)
    requires ScopeOk(scope) && p in PtrVars(scope) && FactsOk(inputs, scope)
    requires AllLinked(b, p, r) && BlockPartsWithin(b, r) && BlockRan(b, [], inputs, out, r, q, around, noWrite)
    requires FactMgrs.BlockMemo(b, scope, [], q.factsIn, q.factsOut, q.cfgEdges)
    requires Start(s, scope, inputs)
    ensures AllLinked(b, p, q) && BlockPartsWithin(b, q)
    ensures Within(TouchedBlock(b, s, n), q.Effect(b.id))
  {
    var c :| c in scope && c.IsPointer() && c.Coll() == p;
    PointerNotDeclared(c, b, scope, false);
    BlockRanLinked(b, p, [], inputs, out, r, q, around, noWrite);
    BlockKeepsParts(b, [], inputs, out, r, q, around, noWrite);
    EnteredStart(inputs, At(q.factsIn, b.id), s, scope);
    BlockWithin(b, scope, [], false, p, q, s, n);
  }

  /** No run of `b` from a store that `fs` cover accesses anything that is not in `eff`. */
  ghost predicate CoversRuns(b: Block, fs: FactVec, eff: Effect, scope: set<Variable>) {
    forall s: Store, n {:trigger TouchedBlock(b, s, n)} :: Start(s, scope, fs) ==> Within(TouchedBlock(b, s, n), eff)
  }

  /** The effect of a function is the one recorded for its body. */
  method FunctionEffect(b: Block, inputs: FactVec, edges: seq<Edge>, noWrite: set<Variable>, ghost scope: set<Variable>)
    returns (ok: bool, effect: Effect)
    requires BlockOk(b, scope, false) && BlockDistinct(b) && FactMgrs.BlockEdgesOk(b, edges)
    requires ScopeOk(scope) && PtrVars(scope) != {} && FactsOk(inputs, scope)
    ensures ok ==> CoversRuns(b, inputs, effect, scope)
  {
    var fm := new FactMgrs.FactMgr(edges);
    FactMgrs.FreshBlockMemo(b, scope, [], map[], map[], edges);
    var out;
    ok, out := FactMgrs.AnalyseBody(fm, b, inputs, noWrite, scope);
    effect := EffectAt(fm.stmEffect, b.id);
    if ok {
      ghost var r, q := Records(map[], map[], {}, map[], edges), fm.View();
      ghost var p := AnyOf(PtrVars(scope));
      NothingLinkedIn(b, p, r);
      NoBlockParts(b, r);
      BlockRanOutside(b, [], inputs, out, r, q, NO_EFFECT, noWrite);
      forall s, n | Start(s, scope, inputs) ensures Within(TouchedBlock(b, s, n), effect) {
        AnalysedWithin(b, p, inputs, out, r, q, NO_EFFECT, noWrite, scope, s, n);
      }
    }
  }

  /** Where the recorded effect fits, a run reads nothing that the surroundings write, and writes nothing
      that they access or that may not be written. */
  lemma NoRunClashes(b: Block, fs: FactVec, eff: Effect, scope: set<Variable>, around: Effect, noWrite: set<Variable>, s: Store, n: nat, c: Variable)
    requires CoversRuns(b, fs, eff, scope) && Fits(eff, around, noWrite) && Start(s, scope, fs)
    ensures c in TouchedBlock(b, s, n).rd ==> c.Coll() !in around.writeVars
    ensures c in TouchedBlock(b, s, n).wr ==> c.Coll() !in around.writeVars + around.readVars + noWrite
  {
    assert Within(TouchedBlock(b, s, n), eff);
  }

  /** Without a pointer in scope, and without records, no block is looked at, and its effect is empty. */
  lemma NothingLookedAt(b: Block, edges: seq<Edge>, noWrite: set<Variable>)
    ensures var r := Records(map[], map[], {}, map[], edges);
      BlockRan(b, [], [], [], r, r.Marked(b.id), NO_EFFECT, noWrite) && r.Marked(b.id).Effect(b.id) == NO_EFFECT
  {
    var r := Records(map[], map[], {}, map[], edges);
    assert Rounds(b, [], false, [], [[]], [r], r, NO_EFFECT, noWrite);
    assert Settled(b, [], r, NO_EFFECT, noWrite);
    assert SearchRan(b, [], false, [], r, r, NO_EFFECT, noWrite);
  }
}
