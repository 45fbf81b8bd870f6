/** Soundness of statements. */
module Analysis {
  // What the recorded in- and out-facts of statements and blocks mean: every run from a store the
  // in-facts cover has defined behaviour and ends in a store the out-facts cover.

  import opened Collections
  import opened Variables
  import opened Facts
  import opened PointsTo
  import opened Expressions
  import opened CGContexts
  import opened ExprSound
  import opened OrderIndependence
  import opened Scopes
  import opened Statements
  import opened ScopeSound

  type FactMap = map<nat, FactVec>

  /** A map of the fact manager; program points never visited read as the empty vector. */
  function At(m: FactMap, id: nat): FactVec {
    if id in m then m[id] else []
  }

  datatype Edge = Edge(src: nat, dest: nat, postDest: bool, backLink: bool)

  /** The sources of the control-flow edges into `dest` with the given attributes. */
  function Sources(edges: seq<Edge>, dest: nat, postDest: bool, backLink: bool): seq<nat> {
    if edges == [] then []
    else
      var e := edges[0];
      (if e.dest == dest && e.postDest == postDest && e.backLink == backLink then [e.src] else [])
      + Sources(edges[1..], dest, postDest, backLink)
  }

  // ---------- soundness of recorded facts ----------

  /** The `continue` and `break` statements through which control may leave to the loop around. */
  datatype Exits = Exits(cont: set<nat>, brk: set<nat>)

  function ExitsOf(x: Stmt): Exits { Exits(Jumps(x, Continued), Jumps(x, Broke)) }

  function ExitsOfSeq(xs: seq<Stmt>): Exits { Exits(SeqJumps(xs, Continued), SeqJumps(xs, Broke)) }

  /** The out-facts of one of the jump statements cover the store. */
  ghost predicate JumpCovered(ids: set<nat>, fo: FactMap, s: Store) {
    exists id :: id in ids && Covers(At(fo, id), s)
  }

  /** A result is accounted for: it is not undefined behaviour; normal completion is covered by
      `out`; a jump is covered, once the locals `lp` of the enclosing loop body are dead, by the
      out-facts of a jump statement. */
  ghost predicate ResultOk(r: Result, scope: set<Variable>, lp: seq<Variable>, out: FactVec, ex: Exits, fo: FactMap) {
    match r
    case Stuck => false
    case OutOfFuel => true
    case Done(sig, s) =>
      && StoreOk(s) && s.Keys == scope
      && match sig
         case Normal => Covers(out, s)
         case Continued => JumpCovered(ex.cont, fo, Kill(s, lp))
         case Broke => JumpCovered(ex.brk, fo, Kill(s, lp))
  }

  ghost predicate Start(s: Store, scope: set<Variable>, fs: FactVec) {
    StoreOk(s) && s.Keys == scope && Covers(fs, s)
  }

  ghost predicate StmtSound(x: Stmt, scope: set<Variable>, lp: seq<Variable>, fs: FactVec, out: FactVec, fo: FactMap) {
    forall s, n {:trigger Exec(x, s, n)} :: Start(s, scope, fs) ==> ResultOk(Exec(x, s, n), scope, lp, out, ExitsOf(x), fo)
  }

  ghost predicate SeqSound(xs: seq<Stmt>, scope: set<Variable>, lp: seq<Variable>, fs: FactVec, out: FactVec, fo: FactMap) {
    forall s, n {:trigger ExecSeq(xs, s, n)} :: Start(s, scope, fs) ==> ResultOk(ExecSeq(xs, s, n), scope, lp, out, ExitsOfSeq(xs), fo)
  }

  ghost predicate BlockSound(b: Block, scope: set<Variable>, lp: seq<Variable>, fs: FactVec, out: FactVec, fo: FactMap) {
    forall s, n {:trigger ExecBlock(b, s, n)} :: Start(s, scope, fs) ==> ResultOk(ExecBlock(b, s, n), scope, lp, out, ExitsOfSeq(b.stms), fo)
  }

  /** Every store that `fs` covers is covered by `gs` too. */
  ghost predicate Below(fs: FactVec, gs: FactVec, scope: set<Variable>) {
    forall s {:trigger Covers(fs, s)} :: Start(s, scope, fs) ==> Covers(gs, s)
  }

  ghost predicate NoSpecial(vs: seq<Variable>) {
    forall v :: v in vs ==> !v.IsSpecial()
  }

  // ---------- composition ----------

  lemma ResultOkMonotone(r: Result, scope: set<Variable>, lp: seq<Variable>, out: FactVec, out': FactVec, ex: Exits, ex': Exits, fo: FactMap)
    requires ResultOk(r, scope, lp, out, ex, fo) && ex.cont <= ex'.cont && ex.brk <= ex'.brk
    requires r.Done? && r.sig == Normal ==> Covers(out', r.st)
    ensures ResultOk(r, scope, lp, out', ex', fo)
  {}

  lemma EmptySeqSound(scope: set<Variable>, lp: seq<Variable>, fs: FactVec, fo: FactMap)
    ensures SeqSound([], scope, lp, fs, fs, fo)
  {}

  lemma {:induction false} ExecSeqSnoc(xs: seq<Stmt>, x: Stmt, s: Store, n: nat)
    ensures ExecSeq(xs + [x], s, n) ==
      match ExecSeq(xs, s, n)
      case Done(Normal, t) => Exec(x, t, n)
      case r => r
    decreases |xs|
  {
    if xs == [] {
      assert [x][1..] == [] && xs + [x] == [x];
      var r := Exec(x, s, n);
      assert r.Done? && r.sig == Normal ==> ExecSeq([], r.st, n) == r;
    } else {
      assert (xs + [x])[1..] == xs[1..] + [x] && (xs + [x])[0] == xs[0];
      var r := Exec(xs[0], s, n);
      if r.Done? && r.sig == Normal { ExecSeqSnoc(xs[1..], x, r.st, n); }
    }
  }

  lemma ExitsSnoc(xs: seq<Stmt>, x: Stmt)
    ensures ExitsOfSeq(xs).cont <= ExitsOfSeq(xs + [x]).cont && ExitsOfSeq(xs).brk <= ExitsOfSeq(xs + [x]).brk
    ensures ExitsOf(x).cont <= ExitsOfSeq(xs + [x]).cont && ExitsOf(x).brk <= ExitsOfSeq(xs + [x]).brk
  {
    var ys := xs + [x];
    forall sig ensures SeqJumps(xs, sig) <= SeqJumps(ys, sig) && Jumps(x, sig) <= SeqJumps(ys, sig) {
      assert ys[|xs|] == x;
      forall id | id in SeqJumps(xs, sig) ensures id in SeqJumps(ys, sig) {
        var i :| 0 <= i < |xs| && id in Jumps(xs[i], sig);
        assert ys[i] == xs[i];
      }
    }
  }

  lemma SeqSoundSnoc(xs: seq<Stmt>, x: Stmt, scope: set<Variable>, lp: seq<Variable>, fs: FactVec, mid: FactVec, out: FactVec, fo: FactMap)
    requires SeqSound(xs, scope, lp, fs, mid, fo) && StmtSound(x, scope, lp, mid, out, fo)
    ensures SeqSound(xs + [x], scope, lp, fs, out, fo)
  {
    ExitsSnoc(xs, x);
    forall s, n | Start(s, scope, fs)
      ensures ResultOk(ExecSeq(xs + [x], s, n), scope, lp, out, ExitsOfSeq(xs + [x]), fo)
    {
      ExecSeqSnoc(xs, x, s, n);
      var r := ExecSeq(xs, s, n);
      if r.Done? && r.sig == Normal {
        var t := Exec(x, r.st, n);
        ResultOkMonotone(t, scope, lp, out, out, ExitsOf(x), ExitsOfSeq(xs + [x]), fo);
      } else {
        ResultOkMonotone(r, scope, lp, mid, out, ExitsOfSeq(xs), ExitsOfSeq(xs + [x]), fo);
      }
    }
  }

  lemma KillTwice(s: Store, vs: seq<Variable>, ws: seq<Variable>)
    requires NoSpecial(ws)
    ensures Kill(Kill(s, vs), ws) == Kill(s, vs + ws)
  {}

  lemma KillNothing(s: Store)
    ensures Kill(s, []) == s
  {}

  /** A block whose statements are accounted for is itself accounted for, its locals retired. */
  lemma BlockFromSeq(b: Block, scope: set<Variable>, lp: seq<Variable>, fs: FactVec, out: FactVec, fo: FactMap)
    requires ScopeOk(scope) && FactsOk(fs, scope) && LocalsOk(b, scope) && NoSpecial(lp) && NoSpecial(DeclVars(b.locals))
    requires SeqSound(b.stms, scope + LocalCells(b), DeclVars(b.locals) + lp, AddedLocals(fs, b.locals), out, fo)
    requires WellFormed(out)
    ensures BlockSound(b, scope, lp, fs, OutOfScope(out, DeclVars(b.locals)), fo)
  {
    var vs := DeclVars(b.locals);
    forall s, n | Start(s, scope, fs)
      ensures ResultOk(ExecBlock(b, s, n), scope, lp, OutOfScope(out, vs), ExitsOfSeq(b.stms), fo)
    {
      EnterCovers(fs, b, s);
      var s' := Alloc(s, b.locals);
      assert Start(s', scope + LocalCells(b), AddedLocals(fs, b.locals));
      var r := ExecSeq(b.stms, s', n);
      if r.Done? {
        LeaveBlock(r, b, scope, lp, out, fo);
      }
    }
  }

  lemma LeaveBlock(r: Result, b: Block, scope: set<Variable>, lp: seq<Variable>, out: FactVec, fo: FactMap)
    requires LocalsOk(b, scope) && NoSpecial(lp) && NoSpecial(DeclVars(b.locals)) && WellFormed(out) && r.Done?
    requires ResultOk(r, scope + LocalCells(b), DeclVars(b.locals) + lp, out, ExitsOfSeq(b.stms), fo)
    ensures ResultOk(Done(r.sig, Kill(r.st, DeclVars(b.locals))), scope, lp, OutOfScope(out, DeclVars(b.locals)), ExitsOfSeq(b.stms), fo)
  {
    var vs := DeclVars(b.locals);
    KillOk(r.st, vs);
    KillTwice(r.st, vs, lp);
    assert scope + LocalCells(b) - CellsOf(vs) == scope;
    if r.sig == Normal { ExitCovers(out, vs, r.st); }
  }

  lemma KillOk(s: Store, vs: seq<Variable>)
    requires StoreOk(s)
    ensures StoreOk(Kill(s, vs)) && Kill(s, vs).Keys == s.Keys - CellsOf(vs)
  {
    var s' := Kill(s, vs);
    forall c ensures c in s' <==> c in s && c !in CellsOf(vs) {
      if c in s { CellFacts(s, c); }
    }
    forall c | c in s' ensures CellOk(s', c) {
      CellFacts(s, c);
      if s[c].Ptr? && s[c].target in s { CellFacts(s, s[c].target); }
    }
  }

  // ---------- statements ----------

  lemma ExprRun(e: Expr, fs: FactVec, c: Context, scope: set<Variable>, s: Store)
    requires ExprOk(e, scope) && FactsOk(fs, scope) && Start(s, scope, fs) && Visit(e, fs, c).Some?
    ensures Eval(e, s).Some? && Start(Eval(e, s).value.st, scope, Visit(e, fs, c).value.0)
  {
    VisitSound(e, fs, c, s);
  }

  lemma ExprStmtSound(x: Stmt, scope: set<Variable>, lp: seq<Variable>, fs: FactVec, c: Context, fo: FactMap)
    requires x.ExprStmt? && ExprOk(x.e, scope) && FactsOk(fs, scope) && Visit(x.e, fs, c).Some?
    ensures StmtSound(x, scope, lp, fs, Visit(x.e, fs, c).value.0, fo)
  {
    forall s, n | Start(s, scope, fs)
      ensures ResultOk(Exec(x, s, n), scope, lp, Visit(x.e, fs, c).value.0, ExitsOf(x), fo)
    {
      ExprRun(x.e, fs, c, scope, s);
    }
  }

  lemma JumpSound(x: Stmt, scope: set<Variable>, lp: seq<Variable>, fs: FactVec, c: Context, fo: FactMap)
    requires (x.Break? || x.Continue?) && ExprOk(x.test, scope) && FactsOk(fs, scope) && NoSpecial(lp) && ScopeOk(scope)
    requires Visit(x.test, fs, c).Some? && At(fo, x.id) == OutOfScope(Visit(x.test, fs, c).value.0, lp)
    ensures StmtSound(x, scope, lp, fs, Visit(x.test, fs, c).value.0, fo)
  {
    var fs1 := Visit(x.test, fs, c).value.0;
    VisitScoped(x.test, fs, c, scope);
    forall s, n | Start(s, scope, fs)
      ensures ResultOk(Exec(x, s, n), scope, lp, fs1, ExitsOf(x), fo)
    {
      ExprRun(x.test, fs, c, scope, s);
      var t := Eval(x.test, s).value.st;
      ExitCovers(fs1, lp, t);
      var ids := if x.Break? then Jumps(x, Broke) else Jumps(x, Continued);
      assert x.id in ids && Covers(At(fo, x.id), Kill(t, lp));
    }
  }

  lemma IfSound(x: Stmt, scope: set<Variable>, lp: seq<Variable>, fs: FactVec, c: Context, outT: FactVec, outE: FactVec, fo: FactMap)
    requires x.If? && ExprOk(x.test, scope) && FactsOk(fs, scope) && Visit(x.test, fs, c).Some?
    requires var fs1 := Visit(x.test, fs, c).value.0;
      BlockSound(x.thn, scope, lp, fs1, outT, fo) && BlockSound(x.els, scope, lp, fs1, outE, fo)
    ensures StmtSound(x, scope, lp, fs, MergedAll(outT, outE), fo)
  {
    var fs1 := Visit(x.test, fs, c).value.0;
    var out := MergedAll(outT, outE);
    forall s, n | Start(s, scope, fs)
      ensures ResultOk(Exec(x, s, n), scope, lp, out, ExitsOf(x), fo)
    {
      ExprRun(x.test, fs, c, scope, s);
      var o := Eval(x.test, s).value;
      var b, outB := if Truth(o.fp.val) then x.thn else x.els, if Truth(o.fp.val) then outT else outE;
      var r := ExecBlock(b, o.st, n);
      assert ResultOk(r, scope, lp, outB, ExitsOfSeq(b.stms), fo);
      if r.Done? && r.sig == Normal { MergeCovers(outT, outE, r.st); }
      assert forall sig :: Jumps(x, sig) == SeqJumps(x.thn.stms, sig) + SeqJumps(x.els.stms, sig);
      ResultOkMonotone(r, scope, lp, outB, out, ExitsOfSeq(b.stms), ExitsOf(x), fo);
    }
  }

  // ---------- loops ----------

  /** The in-facts of the loop body are above its out-facts and those of every `continue`. */
  ghost predicate LoopClosed(x: Stmt, scope: set<Variable>, head: FactVec, tail: FactVec, fo: FactMap)
    requires x.For?
  {
    && (forall id :: id in SeqJumps(x.body.stms, Continued) ==> Below(At(fo, id), head, scope))
    && (x.body.stms == [] || BlockMustJump(x.body) || Below(tail, head, scope))
  }

  lemma WriteNumber(fs: FactVec, s: Store, iv: Variable, n: int, scope: set<Variable>)
    requires Start(s, scope, fs) && iv in s && iv.Level() == 0
    ensures Start(s[iv := Num(n)], scope, fs)
  {
    var s' := s[iv := Num(n)];
    WriteKeepsStoreOk(s, iv, Num(n));
    forall c | c in s' && c.IsPointer() ensures CoveredAt(fs, s', c) { assert CoveredAt(fs, s, c); }
  }

  lemma EmptyBody(b: Block, s: Store, n: nat)
    requires b.stms == [] && StoreOk(s) && LocalsOk(b, s.Keys)
    ensures ExecBlock(b, s, n) == Done(Normal, s)
  {
    var ds, vs := b.locals, DeclVars(b.locals);
    var t := Kill(Alloc(s, ds), vs);
    forall c ensures c in t <==> c in s {
      AllocAt(s, ds, c);
      if c in s { CellFacts(s, c); }
      if c in CellsOf(vs) { assert c !in s; }
    }
    forall c | c in s ensures t[c] == s[c] {
      AllocAt(s, ds, c);
      CellFacts(s, c);
      if s[c].Ptr? && s[c].target in s { CellFacts(s, s[c].target); }
      if s[c].Ptr? && s[c].target.IsSpecial() { LocalsNotSpecial(b, s.Keys); }
    }
    assert t == s;
  }

  lemma LocalsNotSpecial(b: Block, scope: set<Variable>)
    requires LocalsOk(b, scope)
    ensures NoSpecial(DeclVars(b.locals))
  {
    forall v | v in DeclVars(b.locals) ensures !v.IsSpecial() {
      var i :| 0 <= i < |b.locals| && DeclVars(b.locals)[i] == v;
      assert DeclOk(b.locals[i], scope + LocalCells(b));
    }
  }

  /** One iteration brings control back to the loop head, or leaves through `break`. */
  lemma IterationOk(x: Stmt, scope: set<Variable>, head: FactVec, tail: FactVec, fo: FactMap, s: Store, n: nat)
    requires x.For? && LocalsOk(x.body, scope) && LoopClosed(x, scope, head, tail, fo)
    requires BlockSound(x.body, scope, [], head, tail, fo) && Start(s, scope, head)
    ensures var r := ExecBlock(x.body, s, n);
      && r != Stuck
      && (r.Done? && r.sig != Broke ==> Start(r.st, scope, head))
      && (r.Done? && r.sig == Broke ==> StoreOk(r.st) && r.st.Keys == scope && JumpCovered(SeqJumps(x.body.stms, Broke), fo, r.st))
  {
    var r := ExecBlock(x.body, s, n);
    assert ResultOk(r, scope, [], tail, ExitsOfSeq(x.body.stms), fo);
    if r.Done? {
      KillNothing(r.st);
      if r.sig == Continued {
        var id :| id in SeqJumps(x.body.stms, Continued) && Covers(At(fo, id), r.st);
        assert Below(At(fo, id), head, scope);
      } else if r.sig == Normal {
        if x.body.stms == [] { EmptyBody(x.body, s, n); }
        if BlockMustJump(x.body) { BlockMustJumpMeaning(x.body, s, n); }
      }
    }
  }

  /** Loop soundness: any number of iterations from a store the head facts cover is free of
      undefined behaviour and ends where the head facts, or those of a `break`, cover the store. */
  lemma {:induction false} LoopSound(x: Stmt, scope: set<Variable>, head: FactVec, tail: FactVec, fo: FactMap, s: Store, n: nat)
    requires x.For? && LocalsOk(x.body, scope) && x.iv in scope && x.iv.Level() == 0
    requires LoopClosed(x, scope, head, tail, fo)
    requires BlockSound(x.body, scope, [], head, tail, fo) && Start(s, scope, head)
    ensures var r := ExecLoop(x, s, n);
      && r != Stuck
      && (r.Done? ==> r.sig == Normal && StoreOk(r.st) && r.st.Keys == scope)
      && (r.Done? ==> Covers(head, r.st) || JumpCovered(SeqJumps(x.body.stms, Broke), fo, r.st))
    decreases n
  {
    if n > 0 {
      CellFacts(s, x.iv);
      if x.cond(s[x.iv].n) {
        IterationOk(x, scope, head, tail, fo, s, n);
        var r := ExecBlock(x.body, s, n);
        if r.Done? && r.sig != Broke {
          CellFacts(r.st, x.iv);
          WriteNumber(head, r.st, x.iv, x.step(r.st[x.iv].n), scope);
          LoopSound(x, scope, head, tail, fo, r.st[x.iv := Num(x.step(r.st[x.iv].n))], n - 1);
        }
      }
    }
  }

  lemma ForSound(x: Stmt, scope: set<Variable>, lp: seq<Variable>, fs: FactVec, c: Context, head: FactVec, tail: FactVec, out: FactVec, fo: FactMap)
    requires x.For? && ExprOk(x.init, scope) && FactsOk(fs, scope) && Visit(x.init, fs, c).Some?
    requires LocalsOk(x.body, scope) && x.iv in scope && x.iv.Level() == 0
    requires BlockSound(x.body, scope, [], head, tail, fo) && LoopClosed(x, scope, head, tail, fo)
    requires Below(Visit(x.init, fs, c).value.0, head, scope) && Below(head, out, scope)
    requires forall id :: id in SeqJumps(x.body.stms, Broke) ==> Below(At(fo, id), out, scope)
    ensures StmtSound(x, scope, lp, fs, out, fo)
  {
    forall s, n | Start(s, scope, fs)
      ensures ResultOk(Exec(x, s, n), scope, lp, out, ExitsOf(x), fo)
    {
      ExprRun(x.init, fs, c, scope, s);
      var t := Eval(x.init, s).value.st;
      LoopSound(x, scope, head, tail, fo, t, n);
      var r := ExecLoop(x, t, n);
      if r.Done? && !Covers(head, r.st) {
        var id :| id in SeqJumps(x.body.stms, Broke) && Covers(At(fo, id), r.st);
        assert Below(At(fo, id), out, scope);
      }
    }
  }
}
