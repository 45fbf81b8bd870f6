/** A limit of the analysis shortcut. */
module Shortcut {
  import opened Collections
  import opened Variables
  import opened Facts
  import opened Expressions
  import opened Scopes
  import opened Statements
  import opened Analysis
  import opened CGContexts
  import opened FactMgrs

  /** A statement never visited has no recorded facts. The shortcut takes it for analysed exactly
      when no pointer is in scope. */
  lemma UnvisitedIsSkipped(fs: FactVec, scope: set<Variable>)
    requires FactsOk(fs, scope)
    ensures SameFactsSpec(fs, []) <==> PtrVars(scope) == {}
  {
    assert fs != [] ==> fs[0] in fs && FactScoped(fs[0], scope) && fs[0].v in PtrVars(scope);
    if PtrVars(scope) != {} { FactsNotEmpty(fs, scope); }
  }

  /** An `if` whose branch writes through a local null pointer. */
  function NullWrite(): Stmt {
    var p := Plain(1, 1);
    var branch := Block(2, [Decl(p, [Null], k => 0)], [ExprStmt(3, Assign(p, 1, Const(0, 7), false))]);
    If(0, Const(0, 1), branch, Block(4, [], []))
  }

  lemma NullWriteOk()
    ensures StmtOk(NullWrite(), {}, false) && Distinct(NullWrite())
  {
    var p := Plain(1, 1);
    var x := NullWrite();
    assert DeclVars(x.thn.locals) == [p] && LocalCells(x.thn) == {p};
    assert DeclOk(x.thn.locals[0], {p});
    assert {} + LocalCells(x.thn) == {p} && LocalCells(x.els) == {};
    assert StmtOk(x.thn.stms[0], {p}, false);
    assert LocalsOk(x.els, {}) && LocalsOk(x.thn, {});
  }

  /** A manager without a record for the statement takes the shortcut for it. */
  method SkipNullWrite() returns (code: int, outputs: FactVec)
    ensures code == 0 && outputs == []
  {
    var fm := new FactMgr([]);
    var cg := new CGContext(NO_EFFECT, {});
    code, outputs := fm.ShortcutAnalysis(NullWrite().id, false, [], cg);
  }

  /** The statement it skips is undefined in the only store there is. */
  lemma SkippedStatementIsUndefined(n: nat)
    ensures StmtOk(NullWrite(), {}, false) && Distinct(NullWrite())
    ensures FactsOk([], {}) && Start(map[], {}, []) && SameFactsSpec([], At(map[], NullWrite().id))
    ensures Exec(NullWrite(), map[], n) == Stuck
  {
    var p := Plain(1, 1);
    var x := NullWrite();
    NullWriteOk();
    var s := Alloc(map[], x.thn.locals);
    assert x.thn.locals[1..] == [] && s == map[p := Ptr(NullPtr)];
    assert Chase(s, p, 1) == None;
    assert Eval(x.thn.stms[0].e, s) == None;
    assert Exec(x.thn.stms[0], s, n) == Stuck;
    assert ExecSeq(x.thn.stms, s, n) == Stuck;
  }
}
