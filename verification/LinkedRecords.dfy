/** How the records of neighbouring program points fit together after an analysis. */
module LinkedRecords {
  // What the analysis hands from one program point to the next is what is recorded there, or below
  // it: from the test of an `if` to its branches, from a statement to the one behind it, into a loop
  // body. `p` is a pointer of the outermost scope; it has a fact everywhere, so an empty vector is
  // never mistaken for a record.

  import opened Collections
  import opened Variables
  import opened Facts
  import opened PointsTo
  import opened Expressions
  import opened CGContexts
  import opened Statements
  import opened ScopeSound
  import opened Analysis
  import opened FixedPoint
  import opened AnalysisRuns
  import opened RecordedEffects
  import opened Acceptance
  import opened Precision
  import opened Outcomes

  // ---------- facts only grow ----------

  /** `gs` knows every pointer that `fs` knows, with all its pointees. */
  ghost predicate Grown(fs: FactVec, gs: FactVec) {
    forall v :: (Has(fs, v) ==> Has(gs, v)) && ToSet(Pointees(fs, v)) <= ToSet(Pointees(gs, v))
  }

  lemma MergedAllGrown(fs: FactVec, ns: FactVec)
    ensures Grown(fs, MergedAll(fs, ns))
  {
    forall v ensures (Has(fs, v) ==> Has(MergedAll(fs, ns), v)) && ToSet(Pointees(fs, v)) <= ToSet(Pointees(MergedAll(fs, ns), v)) {
      MergedAllMeaning(fs, ns, v);
    }
  }

  lemma {:induction false} MergedSourcesGrown(fs: FactVec, srcs: seq<nat>, fo: FactMap)
    ensures Grown(fs, MergedSources(fs, srcs, fo))
    decreases |srcs|
  {
    if srcs != [] {
      var gs := MergedAll(fs, At(fo, srcs[0]));
      MergedAllGrown(fs, At(fo, srcs[0]));
      MergedSourcesGrown(gs, srcs[1..], fo);
      GrownTwice(fs, gs, MergedSources(fs, srcs, fo));
    }
  }

  lemma GrownTwice(fs: FactVec, gs: FactVec, hs: FactVec)
    requires Grown(fs, gs) && Grown(gs, hs)
    ensures Grown(fs, hs)
  {}

  lemma {:induction false} JumpMergedAllKeeps(fs: FactVec, srcs: seq<nat>, fo: FactMap, p: Variable)
    requires Has(fs, p)
    ensures Has(JumpMergedAll(fs, srcs, fo), p)
    decreases |srcs|
  {
    if srcs != [] {
      MergedAllMeaning(fs, JumpFacts(fs, At(fo, srcs[0])), p);
      JumpMergedAllKeeps(JumpMerged(fs, At(fo, srcs[0])), srcs[1..], fo, p);
    }
  }

  lemma AssignedKeeps(v: Variable, k: nat, rhs: Expr, fs: FactVec, p: Variable)
    requires Has(fs, p)
    ensures Has(AssignedFacts(v, k, rhs, fs), p)
  {
    if v.Level() > k {
      var facts := match RhsPointees(rhs, fs) case None => [] case Some(pts) => MakeFacts(Deref([v.Coll()], k, fs), pts);
      if facts != [] {
        PutMeaning(fs, facts[0], p);
        MergedAllMeaning(fs, facts, p);
      }
    }
  }

  /** No visit loses a fact. */
  lemma {:induction false} VisitKeepsFact(e: Expr, fs: FactVec, c: Context, p: Variable)
    requires Has(fs, p) && Visit(e, fs, c).Some?
    ensures Has(Visit(e, fs, c).value.0, p)
    decreases e, 0
  {
    match e
    case Const(_, _) =>
    case Read(_, _) =>
    case Assign(v, dst, rhs, _) =>
      VisitKeepsFact(rhs, fs, c.Param(c.context), p);
      AssignedKeeps(v, dst, rhs, Visit(rhs, fs, c.Param(c.context)).value.0, p);
    case Comma(l, r) =>
      VisitKeepsFact(l, fs, c, p);
      var (fs1, c1) := Visit(l, fs, c).value;
      VisitKeepsFact(r, fs1, c1, p);
    case Logical(_, l, r) =>
      VisitKeepsFact(l, fs, c, p);
      var (fs1, c1) := Visit(l, fs, c).value;
      VisitKeepsFact(r, fs1, c1, p);
      MergedAllMeaning(Visit(r, fs1, c1).value.0, fs1, p);
    case Op(_, args, _) => ArgsKeepFact(args, 0, fs, c, c.context, p);
  }

  lemma {:induction false} ArgsKeepFact(args: seq<Expr>, i: nat, fs: FactVec, c: Context, running: Effect, p: Variable)
    requires i <= |args| && Has(fs, p) && VisitArgs(args, i, fs, c, running).Some?
    ensures Has(VisitArgs(args, i, fs, c, running).value.0, p)
    decreases args, |args| - i
  {
    if i < |args| {
      VisitKeepsFact(args[i], fs, c.Param(running), p);
      var (fs1, d) := Visit(args[i], fs, c.Param(running)).value;
      ArgsKeepFact(args, i + 1, fs1, c.Merge(d.accum, true), running.Add(d.accum, false), p);
    }
  }

  lemma {:induction false} AddedLocalsKeep(fs: FactVec, ds: seq<Decl>, p: Variable)
    requires Has(fs, p)
    ensures Has(AddedLocals(fs, ds), p)
    decreases |ds|
  {
    if ds != [] {
      AddedMissingKeeps(fs, InitFacts(ds[0].v, ds[0].inits), p);
      AddedLocalsKeep(AddedLocal(fs, ds[0]), ds[1..], p);
    }
  }

  lemma {:induction false} AddedMissingKeeps(fs: FactVec, more: FactVec, p: Variable)
    requires Has(fs, p)
    ensures Has(AddedMissing(fs, more), p)
    decreases |more|
  {
    if more != [] {
      var next := if RelatedIndex(fs, more[0]) < |fs| then fs else fs + [more[0]];
      if next == fs + [more[0]] { AppendKeeps(fs, more[0], p); }
      AddedMissingKeeps(next, more[1..], p);
    }
  }

  lemma {:induction false} AppendKeeps(fs: FactVec, f: Fact, p: Variable)
    requires Has(fs, p)
    ensures Has(fs + [f], p)
  {
    var key := PointTo(p, []);
    var i := RelatedIndex(fs, key);
    RelatedIndexFirst(fs + [f], key);
    assert (fs + [f])[i] == fs[i];
  }

  lemma {:induction false} MarkedAllKeeps(fs: FactVec, vs: seq<Variable>, p: Variable)
    requires Has(fs, p)
    ensures Has(MarkedAll(fs, vs), p)
    decreases |vs|
  {
    if vs != [] {
      var key, gs := PointTo(p, []), MarkedEach(fs, vs[0]);
      var i := RelatedIndex(fs, key);
      assert Related(gs[i], key);
      RelatedIndexFirst(gs, key);
      MarkedAllKeeps(gs, vs[1..], p);
    }
  }

  lemma OutOfScopeKeeps(fs: FactVec, vs: seq<Variable>, p: Variable)
    requires Has(fs, p) && p !in vs
    ensures Has(OutOfScope(fs, vs), p)
  {
    DroppedAllMeaning(fs, vs, p);
    MarkedAllKeeps(DroppedAll(fs, vs), vs, p);
  }

  // ---------- links ----------

  /** What comes in with `fs` is covered by the record `rec`: `fs`, with more pointees, are the same
      facts. */
  ghost predicate Entered(fs: FactVec, rec: FactVec) {
    exists head :: Grown(fs, head) && SameFactsSpec(head, rec)
  }

  lemma SameAsItself(fs: FactVec)
    ensures SameFactsSpec(fs, fs) && Grown(fs, fs)
  {
    forall i | 0 <= i < |fs| ensures HasEqual(fs, fs[i]) { assert EqualFact(fs[i], fs[i]); }
  }

  lemma SameEntered(fs: FactVec, rec: FactVec)
    requires SameFactsSpec(fs, rec)
    ensures Entered(fs, rec)
  {
    SameAsItself(fs);
  }

  /** Facts about `p` that are the recorded ones have a record. */
  lemma SameIsRecorded(fs: FactVec, m: FactMap, id: nat, p: Variable)
    requires Has(fs, p) && SameFactsSpec(fs, At(m, id))
    ensures id in m
  {}

  function FactsThere(e: Expr, fs: FactVec): FactVec { match Own(e, fs) case None => fs case Some((gs, _)) => gs }

  predicate IsJump(x: Stmt) { x.Break? || x.Continue? }

  /** The facts with which control goes on behind `x`. */
  function EndFacts(x: Stmt, r: Records): FactVec {
    if IsJump(x) then FactsThere(x.test, At(r.factsIn, x.id)) else At(r.factsOut, x.id)
  }

  /** The expression is allowed from the recorded in-facts, and its accesses are recorded. */
  ghost predicate ExprRecorded(x: Stmt, r: Records) {
    var own := Own(FirstExpr(x), At(r.factsIn, x.id));
    own.Some? && Part(own.value.1.accum, r.Effect(x.id))
  }

  /** The block `b` of `x` has a record, for the facts that the expression of `x` leaves. */
  ghost predicate PartLinked(x: Stmt, b: Block, r: Records) {
    b.id in r.factsIn && Entered(FactsThere(FirstExpr(x), At(r.factsIn, x.id)), At(r.factsIn, b.id))
  }

  ghost predicate StmtLinked(x: Stmt, p: Variable, r: Records) {
    x.id in r.factsIn ==>
      && Has(At(r.factsIn, x.id), p) && Has(EndFacts(x, r), p) && ExprRecorded(x, r)
      && match x
         case If(_, _, thn, els) => PartLinked(x, thn, r) && PartLinked(x, els, r)
         case For(_, _, _, _, _, body) => PartLinked(x, body, r)
         case _ => true
  }

  /** The facts that reach statement `i` of `b`. */
  function Reaching(b: Block, i: nat, r: Records): FactVec
    requires i < |b.stms|
  {
    if i == 0 then AddedLocals(At(r.factsIn, b.id), b.locals) else EndFacts(b.stms[i - 1], r)
  }

  ghost predicate StepLinked(b: Block, i: nat, r: Records)
    requires i < |b.stms|
  {
    && b.stms[i].id in r.factsIn && Entered(Reaching(b, i, r), At(r.factsIn, b.stms[i].id))
    && (IsJump(b.stms[i]) ==> At(r.factsIn, b.stms[i].id) == Reaching(b, i, r))
  }

  ghost predicate BlockLinked(b: Block, p: Variable, r: Records) {
    b.id in r.factsIn ==>
      && Has(At(r.factsIn, b.id), p) && Has(At(r.factsOut, b.id), p)
      && forall i :: 0 <= i < |b.stms| ==> StepLinked(b, i, r)
  }

  /** All records inside `x` are linked. */
  ghost predicate Linked(x: Stmt, p: Variable, r: Records)
    decreases x, 1
  {
    StmtLinked(x, p, r) && InnerLinked(x, p, r)
  }

  ghost predicate InnerLinked(x: Stmt, p: Variable, r: Records)
    decreases x, 0
  {
    match x
    case If(_, _, thn, els) => AllLinked(thn, p, r) && AllLinked(els, p, r)
    case For(_, _, _, _, _, body) => AllLinked(body, p, r)
    case _ => true
  }

  ghost predicate AllLinked(b: Block, p: Variable, r: Records)
    decreases b, 1
  {
    BlockLinked(b, p, r) && EachLinked(b, p, r)
  }

  ghost predicate EachLinked(b: Block, p: Variable, r: Records)
    decreases b, 0
  {
    forall i :: 0 <= i < |b.stms| ==> Linked(b.stms[i], p, r)
  }

  // ---------- frames ----------

  ghost predicate SameRecords(r: Records, q: Records, ids: set<nat>) {
    forall id :: id in ids ==>
      && r.Effect(id) == q.Effect(id) && (id in r.factsIn <==> id in q.factsIn)
      && At(r.factsIn, id) == At(q.factsIn, id) && At(r.factsOut, id) == At(q.factsOut, id)
  }

  function PartIds(x: Stmt): (ids: set<nat>)
    ensures Ids(x) == {x.id} + ids
  {
    match x
    case If(_, _, thn, els) => BlockIds(thn) + BlockIds(els)
    case For(_, _, _, _, _, body) => BlockIds(body)
    case _ => {}
  }

  lemma StmtLinkedFrame(x: Stmt, p: Variable, r: Records, q: Records)
    requires StmtLinked(x, p, r) && SameRecords(r, q, Ids(x))
    ensures StmtLinked(x, p, q)
  {
    assert x.id in Ids(x);
    match x
    case If(_, _, thn, els) => assert thn.id in BlockIds(thn) && els.id in BlockIds(els);
    case For(_, _, _, _, _, body) => assert body.id in BlockIds(body);
    case _ =>
  }

  lemma BlockLinkedFrame(b: Block, p: Variable, r: Records, q: Records)
    requires BlockLinked(b, p, r) && SameRecords(r, q, BlockIds(b))
    ensures BlockLinked(b, p, q)
  {
    assert b.id in BlockIds(b);
    if b.id in q.factsIn {
      forall i | 0 <= i < |b.stms| ensures StepLinked(b, i, q) {
        assert StepLinked(b, i, r);
        IdInSeq(b.stms, i);
        if i > 0 { IdInSeq(b.stms, i - 1); }
      }
    }
  }

  lemma {:induction false} LinkedFrame(x: Stmt, p: Variable, r: Records, q: Records)
    requires Linked(x, p, r) && SameRecords(r, q, Ids(x))
    ensures Linked(x, p, q)
    decreases x, 1
  {
    StmtLinkedFrame(x, p, r, q);
    InnerLinkedFrame(x, p, r, q);
  }

  lemma {:induction false} InnerLinkedFrame(x: Stmt, p: Variable, r: Records, q: Records)
    requires InnerLinked(x, p, r) && SameRecords(r, q, PartIds(x))
    ensures InnerLinked(x, p, q)
    decreases x, 0
  {
    match x
    case If(_, _, thn, els) =>
      AllLinkedFrame(thn, p, r, q);
      AllLinkedFrame(els, p, r, q);
    case For(_, _, _, _, _, body) => AllLinkedFrame(body, p, r, q);
    case _ =>
  }

  lemma {:induction false} AllLinkedFrame(b: Block, p: Variable, r: Records, q: Records)
    requires AllLinked(b, p, r) && SameRecords(r, q, BlockIds(b))
    ensures AllLinked(b, p, q)
    decreases b, 1
  {
    BlockLinkedFrame(b, p, r, q);
    EachLinkedFrame(b, p, r, q);
  }

  lemma {:induction false} EachLinkedFrame(b: Block, p: Variable, r: Records, q: Records)
    requires EachLinked(b, p, r) && SameRecords(r, q, SeqIds(b.stms))
    ensures EachLinked(b, p, q)
    decreases b, 0
  {
    forall i | 0 <= i < |b.stms| ensures Linked(b.stms[i], p, q) {
      IdInSeq(b.stms, i);
      LinkedFrame(b.stms[i], p, r, q);
    }
  }

  // ---------- a successful analysis keeps the links ----------

  /** `p` is not declared inside. */
  ghost predicate NotInside(p: Variable, x: Stmt)
    decreases x, 1
  {
    match x
    case If(_, _, thn, els) => NotDeclared(p, thn) && NotDeclared(p, els)
    case For(_, _, _, _, _, body) => NotDeclared(p, body)
    case _ => true
  }

  ghost predicate NotDeclared(p: Variable, b: Block)
    decreases b, 0
  {
    p !in DeclVars(b.locals) && forall i :: 0 <= i < |b.stms| ==> NotInside(p, b.stms[i])
  }

  /** What an analysis of `x` from `fs` leaves. */
  ghost predicate EndLinked(x: Stmt, p: Variable, fs: FactVec, out: FactVec, q: Records) {
    && Linked(x, p, q) && x.id in q.factsIn && Entered(fs, At(q.factsIn, x.id)) && Has(out, p) && out == EndFacts(x, q)
    && (IsJump(x) ==> At(q.factsIn, x.id) == fs)
  }

  lemma {:induction false} RanLinked(x: Stmt, p: Variable, lp: seq<Variable>, fs: FactVec, out: FactVec, r: Records, q: Records, around: Effect, noWrite: set<Variable>)
    requires Distinct(x) && NotInside(p, x) && Has(fs, p) && Linked(x, p, r) && Ran(x, lp, fs, out, r, q, around, noWrite)
    ensures EndLinked(x, p, fs, out, q)
    decreases x, 2
  {
    if Reusable(x, fs, r) {
      SameIsRecorded(fs, r.factsIn, x.id, p);
      SameEntered(fs, At(r.factsIn, x.id));
    } else {
      var m :| VisitRan(x, lp, fs, out, r, m, around, noWrite) && q == Storing(m, x, fs, out, lp);
      VisitLinked(x, p, lp, fs, out, r, m, around, noWrite);
      StoredLinked(x, p, lp, fs, out, m);
    }
  }

  /** What a visit of `x` from `fs` leaves before the facts are recorded. */
  ghost predicate VisitedLinked(x: Stmt, p: Variable, fs: FactVec, out: FactVec, m: Records) {
    && InnerLinked(x, p, m) && Has(fs, p) && Has(out, p)
    && Own(FirstExpr(x), fs).Some? && Part(Own(FirstExpr(x), fs).value.1.accum, m.Effect(x.id))
    && match x
       case If(_, _, thn, els) => PartReached(x, thn, fs, m) && PartReached(x, els, fs, m)
       case For(_, _, _, _, _, body) => PartReached(x, body, fs, m)
       case _ => out == Own(FirstExpr(x), fs).value.0
  }

  ghost predicate PartReached(x: Stmt, b: Block, fs: FactVec, m: Records) {
    b.id in m.factsIn && Entered(FactsThere(FirstExpr(x), fs), At(m.factsIn, b.id))
  }

  lemma PartStored(x: Stmt, b: Block, fs: FactVec, m: Records, q: Records)
    requires PartReached(x, b, fs, m) && SameRecords(m, q, {b.id}) && At(q.factsIn, x.id) == fs
    ensures PartLinked(x, b, q)
  {}

  lemma EndStored(x: Stmt, p: Variable, lp: seq<Variable>, fs: FactVec, out: FactVec, m: Records)
    requires VisitedLinked(x, p, fs, out, m)
    ensures At(Storing(m, x, fs, out, lp).factsIn, x.id) == fs && EndFacts(x, Storing(m, x, fs, out, lp)) == out
    ensures ExprRecorded(x, Storing(m, x, fs, out, lp))
  {}

  lemma StoredLinked(x: Stmt, p: Variable, lp: seq<Variable>, fs: FactVec, out: FactVec, m: Records)
    requires Distinct(x) && VisitedLinked(x, p, fs, out, m)
    ensures EndLinked(x, p, fs, out, Storing(m, x, fs, out, lp))
  {
    var q := Storing(m, x, fs, out, lp);
    assert SameRecords(m, q, PartIds(x));
    EndStored(x, p, lp, fs, out, m);
    InnerLinkedFrame(x, p, m, q);
    assert StmtLinked(x, p, q) by { PartsStored(x, p, fs, out, m, q); }
    SameAsItself(fs);
    SameEntered(fs, fs);
  }

  lemma PartsStored(x: Stmt, p: Variable, fs: FactVec, out: FactVec, m: Records, q: Records)
    requires VisitedLinked(x, p, fs, out, m) && SameRecords(m, q, PartIds(x)) && At(q.factsIn, x.id) == fs
    ensures x.If? ==> PartLinked(x, x.thn, q) && PartLinked(x, x.els, q)
    ensures x.For? ==> PartLinked(x, x.body, q)
  {
    match x
    case If(_, _, thn, els) =>
      assert thn.id in BlockIds(thn) && els.id in BlockIds(els);
      PartStored(x, thn, fs, m, q);
      PartStored(x, els, fs, m, q);
    case For(_, _, _, _, _, body) =>
      assert body.id in BlockIds(body);
      PartStored(x, body, fs, m, q);
    case _ =>
  }

  lemma {:induction false} VisitLinked(x: Stmt, p: Variable, lp: seq<Variable>, fs: FactVec, out: FactVec, r: Records, m: Records, around: Effect, noWrite: set<Variable>)
    requires Distinct(x) && NotInside(p, x) && Has(fs, p) && InnerLinked(x, p, r) && VisitRan(x, lp, fs, out, r, m, around, noWrite)
    ensures VisitedLinked(x, p, fs, out, m)
    decreases x, 1
  {
    ExprExactly(FirstExpr(x), fs, around, noWrite);
    VisitKeepsFact(FirstExpr(x), fs, ALONE, p);
    match x
    case If(_, _, _, _) =>
      var o1, o2, r2, r3 := IfTaken(x, lp, fs, out, r, m, around, noWrite);
      IfLinked(x, p, lp, fs, o1, o2, r, r2, r3, EffectOf(x.test, fs, around, noWrite), around, noWrite);
    case For(_, _, _, _, _, _) => ForLinked(x, p, lp, fs, out, r, m, around, noWrite);
    case _ =>
  }

  lemma {:induction false} IfLinked(x: Stmt, p: Variable, lp: seq<Variable>, fs: FactVec, o1: FactVec, o2: FactVec, r: Records, r2: Records, r3: Records, eff: Effect, around: Effect, noWrite: set<Variable>)
    requires x.If? && Distinct(x) && NotInside(p, x) && Has(fs, p) && InnerLinked(x, p, r)
    requires Own(x.test, fs).Some? && Has(Own(x.test, fs).value.0, p) && Part(Own(x.test, fs).value.1.accum, eff)
    requires BothRan(x, lp, Own(x.test, fs).value.0, o1, o2, r.Marked(x.id), r2, r3, around, noWrite)
    ensures VisitedLinked(x, p, fs, MergedAll(o1, o2), r3.WithEffect(x.id, IfEffect(x, eff, r3)))
    decreases x, 0
  {
    var gs, m := Own(x.test, fs).value.0, r3.WithEffect(x.id, IfEffect(x, eff, r3));
    FirstBranchLinked(x, p, lp, gs, o1, r, r2, around, noWrite);
    SecondBranchLinked(x, p, lp, gs, o2, r2, r3, around, noWrite);
    EffectStored(x, r3, IfEffect(x, eff, r3));
    BranchesKept(x, p, gs, r2, r3, m);
    MergedAllMeaning(o1, o2, p);
  }

  lemma EffectStored(x: Stmt, r: Records, eff: Effect)
    requires Distinct(x)
    ensures SameRecords(r, r.WithEffect(x.id, eff), PartIds(x))
  {}

  lemma {:induction false} FirstBranchLinked(x: Stmt, p: Variable, lp: seq<Variable>, gs: FactVec, o1: FactVec, r: Records, r2: Records, around: Effect, noWrite: set<Variable>)
    requires x.If? && Distinct(x) && NotInside(p, x) && Has(gs, p) && AllLinked(x.thn, p, r) && AllLinked(x.els, p, r)
    requires BlockRan(x.thn, lp, gs, o1, r.Marked(x.id), r2, around, noWrite)
    ensures AllLinked(x.thn, p, r2) && x.thn.id in r2.factsIn && Entered(gs, At(r2.factsIn, x.thn.id)) && Has(o1, p)
    ensures AllLinked(x.els, p, r2)
    decreases x.thn, 5
  {
    var r1 := r.Marked(x.id);
    AllLinkedFrame(x.thn, p, r, r1);
    BlockRanLinked(x.thn, p, lp, gs, o1, r1, r2, around, noWrite);
    BlockRanOutside(x.thn, lp, gs, o1, r1, r2, around, noWrite);
    AllLinkedFrame(x.els, p, r, r2);
  }

  lemma {:induction false} SecondBranchLinked(x: Stmt, p: Variable, lp: seq<Variable>, gs: FactVec, o2: FactVec, r2: Records, r3: Records, around: Effect, noWrite: set<Variable>)
    requires x.If? && Distinct(x) && NotInside(p, x) && Has(gs, p) && AllLinked(x.els, p, r2)
    requires BlockRan(x.els, lp, gs, o2, r2, r3, around, noWrite)
    ensures AllLinked(x.els, p, r3) && x.els.id in r3.factsIn && Entered(gs, At(r3.factsIn, x.els.id)) && Has(o2, p)
    ensures SameRecords(r2, r3, BlockIds(x.thn))
    decreases x.els, 5
  {
    BlockRanLinked(x.els, p, lp, gs, o2, r2, r3, around, noWrite);
    BlockRanOutside(x.els, lp, gs, o2, r2, r3, around, noWrite);
  }

  /** Nothing that is recorded after a branch touches its links. */
  lemma BranchesKept(x: Stmt, p: Variable, gs: FactVec, r2: Records, r3: Records, m: Records)
    requires x.If? && Distinct(x) && SameRecords(r2, r3, BlockIds(x.thn)) && SameRecords(r3, m, PartIds(x))
    requires AllLinked(x.thn, p, r2) && x.thn.id in r2.factsIn && Entered(gs, At(r2.factsIn, x.thn.id))
    requires AllLinked(x.els, p, r3) && x.els.id in r3.factsIn && Entered(gs, At(r3.factsIn, x.els.id))
    ensures InnerLinked(x, p, m)
    ensures x.thn.id in m.factsIn && Entered(gs, At(m.factsIn, x.thn.id))
    ensures x.els.id in m.factsIn && Entered(gs, At(m.factsIn, x.els.id))
  {
    assert x.thn.id in BlockIds(x.thn) && x.els.id in BlockIds(x.els);
    AllLinkedFrame(x.thn, p, r2, m);
    AllLinkedFrame(x.els, p, r3, m);
  }

  lemma {:induction false} ForLinked(x: Stmt, p: Variable, lp: seq<Variable>, fs: FactVec, out: FactVec, r: Records, m: Records, around: Effect, noWrite: set<Variable>)
    requires x.For? && Distinct(x) && NotInside(p, x) && Has(fs, p) && InnerLinked(x, p, r) && VisitRan(x, lp, fs, out, r, m, around, noWrite)
    requires Own(x.init, fs).Some? && FactsAfter(x.init, fs, around, noWrite) == Own(x.init, fs).value.0 && Has(Own(x.init, fs).value.0, p)
    requires Part(Own(x.init, fs).value.1.accum, EffectOf(x.init, fs, around, noWrite))
    ensures VisitedLinked(x, p, fs, out, m)
    decreases x, 0
  {
    var gs, r1 := Own(x.init, fs).value.0, r.Marked(x.id);
    var o, r2 := ForTaken(x, lp, fs, out, r, m, around, noWrite);
    AllLinkedFrame(x.body, p, r, r1);
    BlockRanLinked(x.body, p, [], gs, o, r1, r2, around, noWrite + {x.iv});
    assert x.body.id in BlockIds(x.body);
    AllLinkedFrame(x.body, p, r2, m);
    assert BlockLinked(x.body, p, r2);
    JumpMergedAllKeeps(At(r2.factsIn, x.body.id), Sources(r2.cfgEdges, x.id, true, false), r2.factsOut, p);
  }

  lemma {:induction false} BlockRanLinked(b: Block, p: Variable, lp: seq<Variable>, fs: FactVec, out: FactVec, r: Records, q: Records, around: Effect, noWrite: set<Variable>)
    requires BlockDistinct(b) && NotDeclared(p, b) && Has(fs, p) && AllLinked(b, p, r) && BlockRan(b, lp, fs, out, r, q, around, noWrite)
    ensures AllLinked(b, p, q) && b.id in q.factsIn && Entered(fs, At(q.factsIn, b.id)) && Has(out, p) && out == At(q.factsOut, b.id)
    decreases b, 4
  {
    var m :| SearchRan(b, lp, false, fs, r, m, around, noWrite) && out == At(m.factsOut, b.id) && q == m.Marked(b.id);
    var heads, rs := SearchTaken(b, lp, false, fs, r, m, around, noWrite);
    var n := |rs| - 1;
    RoundsLinked(b, p, lp, false, fs, heads, rs, r, around, noWrite, n);
    SameIsRecorded(heads[n], m.factsIn, b.id, p);
    assert Grown(fs, heads[n]) && SameFactsSpec(heads[n], At(m.factsIn, b.id));
    assert Entered(fs, At(m.factsIn, b.id));
    AllLinkedFrame(b, p, m, q);
  }

  lemma {:induction false} RoundsLinked(b: Block, p: Variable, lp: seq<Variable>, once: bool, fs: FactVec, heads: seq<FactVec>, rs: seq<Records>, r: Records, around: Effect, noWrite: set<Variable>, n: nat)
    requires BlockDistinct(b) && NotDeclared(p, b) && Has(fs, p) && AllLinked(b, p, r) && Rounds(b, lp, once, fs, heads, rs, r, around, noWrite) && n < |rs|
    ensures AllLinked(b, p, rs[n]) && Grown(fs, heads[n]) && Has(heads[n], p)
    decreases b, 3, n
  {
    if n == 0 {
      FedGrown(b, fs, r);
    } else {
      var k := n - 1;
      RoundsLinked(b, p, lp, once, fs, heads, rs, r, around, noWrite, k);
      assert NextRound(b, lp, once && k == 0, heads[k], heads[n], rs[k], rs[n], around, noWrite);
      PassLinked(b, p, lp, heads[k], rs[k], rs[n], around, noWrite);
      FedGrown(b, heads[k], rs[n]);
      GrownTwice(fs, heads[k], heads[n]);
    }
  }

  lemma FedGrown(b: Block, fs: FactVec, r: Records)
    ensures Grown(fs, Fed(b, fs, r))
  {
    MergedSourcesGrown(fs, Sources(r.cfgEdges, b.id, false, true), r.factsOut);
  }

  lemma {:induction false} PassLinked(b: Block, p: Variable, lp: seq<Variable>, head: FactVec, r: Records, q: Records, around: Effect, noWrite: set<Variable>)
    requires BlockDistinct(b) && NotDeclared(p, b) && Has(head, p) && EachLinked(b, p, r) && PassRan(b, lp, head, r, q, around, noWrite)
    ensures AllLinked(b, p, q)
    decreases b, 2
  {
    var n := |b.stms|;
    var trail: seq<FactVec>, ms: seq<Records> :| Through(b, lp, head, trail, ms, r, around, noWrite) && |ms| == n + 1 && q == PassStored(ms[n], b, head, trail[n]);
    ThroughLinked(b, p, lp, head, trail, ms, r, around, noWrite, n);
    assert SameRecords(ms[n], q, SeqIds(b.stms));
    EachLinkedFrame(b, p, ms[n], q);
    OutOfScopeKeeps(trail[n], DeclVars(b.locals), p);
    forall i | 0 <= i < n ensures StepLinked(b, i, q) { StepIsLinked(b, trail, head, i, ms[n], q); }
  }

  lemma StepIsLinked(b: Block, trail: seq<FactVec>, head: FactVec, i: nat, m: Records, q: Records)
    requires i < |b.stms| && i + 1 < |trail| && SameRecords(m, q, SeqIds(b.stms)) && At(q.factsIn, b.id) == head
    requires StepDone(b, trail, i, m) && trail[0] == AddedLocals(head, b.locals) && (i > 0 ==> StepDone(b, trail, i - 1, m))
    ensures StepLinked(b, i, q)
  {
    IdInSeq(b.stms, i);
    if i > 0 { IdInSeq(b.stms, i - 1); }
  }

  /** Statement `i` has been entered with `trail[i]` and left with `trail[i + 1]`. */
  ghost predicate StepDone(b: Block, trail: seq<FactVec>, i: nat, m: Records)
    requires i < |b.stms| && i + 1 < |trail|
  {
    && b.stms[i].id in m.factsIn && Entered(trail[i], At(m.factsIn, b.stms[i].id)) && trail[i + 1] == EndFacts(b.stms[i], m)
    && (IsJump(b.stms[i]) ==> At(m.factsIn, b.stms[i].id) == trail[i])
  }

  lemma {:induction false} ThroughLinked(b: Block, p: Variable, lp: seq<Variable>, head: FactVec, trail: seq<FactVec>, ms: seq<Records>, r: Records, around: Effect, noWrite: set<Variable>, n: nat)
    requires BlockDistinct(b) && NotDeclared(p, b) && Has(head, p) && EachLinked(b, p, r) && Through(b, lp, head, trail, ms, r, around, noWrite) && n < |ms|
    ensures EachLinked(b, p, ms[n]) && Has(trail[n], p) && forall i :: 0 <= i < n ==> StepDone(b, trail, i, ms[n])
    decreases b, 1, n
  {
    if n == 0 {
      AddedLocalsKeep(head, b.locals, p);
    } else {
      var k := n - 1;
      ThroughLinked(b, p, lp, head, trail, ms, r, around, noWrite, k);
      RanLinked(b.stms[k], p, DeclVars(b.locals) + lp, trail[k], trail[n], ms[k], ms[n], around, noWrite);
      RanOutside(b.stms[k], DeclVars(b.locals) + lp, trail[k], trail[n], ms[k], ms[n], around, noWrite);
      OthersLinked(b, p, k, trail, ms[k], ms[n]);
    }
  }

  /** What is recorded for one statement leaves the links of the others alone. */
  lemma OthersLinked(b: Block, p: Variable, k: nat, trail: seq<FactVec>, r: Records, q: Records)
    requires k < |b.stms| && k + 1 < |trail| && BlockDistinct(b) && EachLinked(b, p, r) && Outside(r, q, Ids(b.stms[k]))
    requires forall i :: 0 <= i < k ==> StepDone(b, trail, i, r)
    requires Linked(b.stms[k], p, q) && StepDone(b, trail, k, q)
    ensures EachLinked(b, p, q) && forall i :: 0 <= i <= k ==> StepDone(b, trail, i, q)
  {
    forall i | 0 <= i < |b.stms| && i != k ensures Linked(b.stms[i], p, q) {
      assert Ids(b.stms[i]) !! Ids(b.stms[k]);
      LinkedFrame(b.stms[i], p, r, q);
    }
    forall i | 0 <= i < k ensures StepDone(b, trail, i, q) {
      assert Ids(b.stms[i]) !! Ids(b.stms[k]);
      IdInSeq(b.stms, i);
      StepDoneFrame(b, trail, i, r, q);
    }
  }

  lemma StepDoneFrame(b: Block, trail: seq<FactVec>, i: nat, r: Records, q: Records)
    requires i < |b.stms| && i + 1 < |trail| && StepDone(b, trail, i, r) && SameRecords(r, q, {b.stms[i].id})
    ensures StepDone(b, trail, i, q)
  {}

  /** A new manager has no records. */
  lemma {:induction false} NothingLinked(x: Stmt, p: Variable, r: Records)
    requires r.factsIn == map[]
    ensures Linked(x, p, r)
    decreases x, 1
  {
    match x
    case If(_, _, thn, els) => NothingLinkedIn(thn, p, r); NothingLinkedIn(els, p, r);
    case For(_, _, _, _, _, body) => NothingLinkedIn(body, p, r);
    case _ =>
  }

  lemma {:induction false} NothingLinkedIn(b: Block, p: Variable, r: Records)
    requires r.factsIn == map[]
    ensures AllLinked(b, p, r)
    decreases b, 0
  {
    forall i | 0 <= i < |b.stms| ensures Linked(b.stms[i], p, r) { NothingLinked(b.stms[i], p, r); }
  }
}
