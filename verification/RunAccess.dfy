/** What a run reads and writes. */
module RunAccesses {
  // The accesses of the expressions that a run of a statement evaluates, and the proof that they
  // account for every change it makes.

  import opened Collections
  import opened Variables
  import opened Expressions
  import opened Statements
  import opened AnalysisRuns

  // ---------- the accesses of a run ----------

  datatype Accesses = Accesses(rd: set<Variable>, wr: set<Variable>)
  {
    function Plus(a: Accesses): Accesses { Accesses(rd + a.rd, wr + a.wr) }
  }

  const NO_ACCESS := Accesses({}, {})

  function OfExpr(e: Expr, s: Store): Accesses {
    match Eval(e, s) case None => NO_ACCESS case Some(o) => Accesses(o.fp.rd, o.fp.wr)
  }

  /** What a run of `x` from `s` reads and writes. */
  function Touched(x: Stmt, s: Store, fuel: nat): Accesses
    decreases x, fuel, 1
  {
    OfExpr(FirstExpr(x), s).Plus(
      match Eval(FirstExpr(x), s)
      case None => NO_ACCESS
      case Some(o) =>
        match x
        case If(_, _, thn, els) => if Truth(o.fp.val) then TouchedBlock(thn, o.st, fuel) else TouchedBlock(els, o.st, fuel)
        case For(_, _, _, _, _, _) => TouchedLoop(x, o.st, fuel)
        case _ => NO_ACCESS)
  }

  function TouchedLoop(x: Stmt, s: Store, fuel: nat): Accesses
    requires x.For?
    decreases x, fuel, 0
  {
    if fuel == 0 || x.iv !in s || !s[x.iv].Num? || !x.cond(s[x.iv].n) then NO_ACCESS
    else
      TouchedBlock(x.body, s, fuel).Plus(
        match ExecBlock(x.body, s, fuel)
        case Done(sig, t) =>
          if sig == Broke || x.iv !in t || !t[x.iv].Num? then NO_ACCESS
          else TouchedLoop(x, t[x.iv := Num(x.step(t[x.iv].n))], fuel - 1)
        case _ => NO_ACCESS)
  }

  function TouchedBlock(b: Block, s: Store, fuel: nat): Accesses
    decreases b, fuel, 1
  {
    TouchedSeq(b.stms, Alloc(s, b.locals), fuel)
  }

  function TouchedSeq(xs: seq<Stmt>, s: Store, fuel: nat): Accesses
    decreases xs, fuel, 0
  {
    if xs == [] then NO_ACCESS
    else
      Touched(xs[0], s, fuel).Plus(
        match Exec(xs[0], s, fuel)
        case Done(Normal, t) => TouchedSeq(xs[1..], t, fuel)
        case _ => NO_ACCESS)
  }

  // ---------- they account for all changes ----------

  /** The loop goes on with another iteration after this one. */
  predicate GoesOn(x: Stmt, q: Result) { x.For? && q.Done? && q.sig != Broke && x.iv in q.st && q.st[x.iv].Num? }

  function Next(x: Stmt, q: Result): Store
    requires GoesOn(x, q)
  {
    q.st[x.iv := Num(x.step(q.st[x.iv].n))]
  }

  /** The variables declared inside. */
  function LocalsIn(x: Stmt): set<Variable>
    decreases x, 1
  {
    match x
    case If(_, _, thn, els) => LocalsOf(thn) + LocalsOf(els)
    case For(_, _, _, _, _, body) => LocalsOf(body)
    case _ => {}
  }

  function LocalsOf(b: Block): set<Variable>
    decreases b, 0
  {
    ToSet(DeclVars(b.locals)) + set i, v | 0 <= i < |b.stms| && v in LocalsIn(b.stms[i]) :: v
  }

  /** The induction variables of the loops inside. */
  function CountersIn(x: Stmt): set<Variable>
    decreases x, 1
  {
    match x
    case If(_, _, thn, els) => CountersOf(thn) + CountersOf(els)
    case For(_, _, iv, _, _, body) => {iv} + CountersOf(body)
    case _ => {}
  }

  function CountersOf(b: Block): set<Variable>
    decreases b, 0
  {
    set i, v | 0 <= i < |b.stms| && v in CountersIn(b.stms[i]) :: v
  }

  /** From `s` to `t` only locations in `wr` and `counters` have changed, and pointers to the variables
      `locals`, which are gone or new. */
  ghost predicate ChangedOnly(s: Store, t: Store, wr: set<Variable>, counters: set<Variable>, locals: set<Variable>) {
    forall c :: c in s && c.Coll() !in locals ==>
      c in t && (t[c] == s[c] || c in wr || c in counters || (s[c].Ptr? && s[c].target.Coll() in locals))
  }

  lemma ChangedTwice(s: Store, t: Store, u: Store, wr1: set<Variable>, wr2: set<Variable>, counters: set<Variable>, locals: set<Variable>)
    requires ChangedOnly(s, t, wr1, counters, locals) && ChangedOnly(t, u, wr2, counters, locals)
    ensures ChangedOnly(s, u, wr1 + wr2, counters, locals)
  {}

  lemma ChangedMore(s: Store, t: Store, wr: set<Variable>, wr': set<Variable>, counters: set<Variable>, counters': set<Variable>, locals: set<Variable>, locals': set<Variable>)
    requires ChangedOnly(s, t, wr, counters, locals) && wr <= wr' && counters <= counters' && locals <= locals'
    ensures ChangedOnly(s, t, wr', counters', locals')
  {}

  lemma ExprChanges(x: Stmt, scope: set<Variable>, inLoop: bool, s: Store)
    requires StmtOk(x, scope, inLoop) && Eval(FirstExpr(x), s).Some?
    ensures ChangedOnly(s, Eval(FirstExpr(x), s).value.st, OfExpr(FirstExpr(x), s).wr, {}, {})
  {
    EvalFramed(FirstExpr(x), s);
  }

  /** A run changes nothing but what it writes, the induction variables of its loops, and pointers to its
      own locals. */
  lemma {:induction false} RunChanges(x: Stmt, scope: set<Variable>, inLoop: bool, s: Store, n: nat)
    requires StmtOk(x, scope, inLoop) && Exec(x, s, n).Done?
    ensures ChangedOnly(s, Exec(x, s, n).st, Touched(x, s, n).wr, CountersIn(x), LocalsIn(x))
    decreases x, n, 1
  {
    ExprChanges(x, scope, inLoop, s);
    var o := Eval(FirstExpr(x), s).value;
    var wr := OfExpr(FirstExpr(x), s).wr;
    ChangedMore(s, o.st, wr, wr, {}, CountersIn(x), {}, LocalsIn(x));
    match x
    case If(_, _, thn, els) =>
      var b := if Truth(o.fp.val) then thn else els;
      BlockChanges(b, scope, inLoop, o.st, n);
      var more := TouchedBlock(b, o.st, n).wr;
      ChangedMore(o.st, ExecBlock(b, o.st, n).st, more, more, CountersOf(b), CountersIn(x), LocalsOf(b), LocalsIn(x));
      ChangedTwice(s, o.st, ExecBlock(b, o.st, n).st, wr, more, CountersIn(x), LocalsIn(x));
    case For(_, _, _, _, _, _) =>
      LoopChanges(x, scope, o.st, n);
      ChangedTwice(s, o.st, ExecLoop(x, o.st, n).st, wr, TouchedLoop(x, o.st, n).wr, CountersIn(x), LocalsIn(x));
    case _ =>
  }

  predicate Enters(x: Stmt, s: Store, n: nat) { x.For? && n > 0 && x.iv in s && s[x.iv].Num? && x.cond(s[x.iv].n) }

  /** One iteration of a loop, and what comes after it. */
  lemma OneIteration(x: Stmt, s: Store, n: nat)
    requires x.For?
    ensures !Enters(x, s, n) ==> TouchedLoop(x, s, n) == NO_ACCESS && (ExecLoop(x, s, n).Done? ==> ExecLoop(x, s, n).st == s)
    ensures Enters(x, s, n) ==>
      var q := ExecBlock(x.body, s, n);
      && TouchedLoop(x, s, n) == TouchedBlock(x.body, s, n).Plus(if GoesOn(x, q) then TouchedLoop(x, Next(x, q), n - 1) else NO_ACCESS)
      && (GoesOn(x, q) ==> ExecLoop(x, s, n) == ExecLoop(x, Next(x, q), n - 1))
      && (!GoesOn(x, q) && ExecLoop(x, s, n).Done? ==> q.Done? && ExecLoop(x, s, n).st == q.st)
  {}

  /** The change that `ExecLoop` makes from `s`. */
  ghost predicate LoopFramed(x: Stmt, s: Store, n: nat)
    requires x.For?
  {
    ExecLoop(x, s, n).Done? ==> ChangedOnly(s, ExecLoop(x, s, n).st, TouchedLoop(x, s, n).wr, CountersIn(x), LocalsIn(x))
  }

  ghost predicate BlockFramed(b: Block, s: Store, n: nat) {
    ExecBlock(b, s, n).Done? ==> ChangedOnly(s, ExecBlock(b, s, n).st, TouchedBlock(b, s, n).wr, CountersOf(b), LocalsOf(b))
  }

  lemma {:induction false} LoopChanges(x: Stmt, scope: set<Variable>, s: Store, n: nat)
    requires x.For? && BlockOk(x.body, scope, true)
    ensures LoopFramed(x, s, n)
    decreases x, n, 0
  {
    if Enters(x, s, n) {
      var q := ExecBlock(x.body, s, n);
      BlockChanges(x.body, scope, true, s, n);
      if GoesOn(x, q) { LoopChanges(x, scope, Next(x, q), n - 1); }
      IterationChanges(x, s, n);
    } else {
      NoIteration(x, s, n);
    }
  }

  lemma NoIteration(x: Stmt, s: Store, n: nat)
    requires x.For? && !Enters(x, s, n)
    ensures LoopFramed(x, s, n)
  {
    OneIteration(x, s, n);
  }

  lemma IterationChanges(x: Stmt, s: Store, n: nat)
    requires Enters(x, s, n)
    requires var q := ExecBlock(x.body, s, n);
      BlockFramed(x.body, s, n) && (GoesOn(x, q) ==> LoopFramed(x, Next(x, q), n - 1))
    ensures LoopFramed(x, s, n)
  {
    OneIteration(x, s, n);
    if ExecLoop(x, s, n).Done? {
      var q, wr := ExecBlock(x.body, s, n), TouchedBlock(x.body, s, n).wr;
      if GoesOn(x, q) {
        GoingOnChanges(x, s, q, ExecLoop(x, Next(x, q), n - 1).st, wr, TouchedLoop(x, Next(x, q), n - 1).wr);
      } else {
        EndingChanges(x, s, q.st, wr);
      }
    }
  }

  lemma EndingChanges(x: Stmt, s: Store, u: Store, wr: set<Variable>)
    requires x.For? && ChangedOnly(s, u, wr, CountersOf(x.body), LocalsOf(x.body))
    ensures ChangedOnly(s, u, wr, CountersIn(x), LocalsIn(x))
  {
    ChangedMore(s, u, wr, wr, CountersOf(x.body), CountersIn(x), LocalsOf(x.body), LocalsIn(x));
  }

  lemma GoingOnChanges(x: Stmt, s: Store, q: Result, u: Store, wr: set<Variable>, more: set<Variable>)
    requires GoesOn(x, q) && ChangedOnly(s, q.st, wr, CountersOf(x.body), LocalsOf(x.body))
    requires ChangedOnly(Next(x, q), u, more, CountersIn(x), LocalsIn(x))
    ensures ChangedOnly(s, u, wr + more, CountersIn(x), LocalsIn(x))
  {
    ChangedMore(s, q.st, wr, wr, CountersOf(x.body), CountersIn(x), LocalsOf(x.body), LocalsIn(x));
    assert ChangedOnly(q.st, Next(x, q), {}, CountersIn(x), LocalsIn(x));
    ChangedTwice(q.st, Next(x, q), u, {}, more, CountersIn(x), LocalsIn(x));
    ChangedTwice(s, q.st, u, wr, {} + more, CountersIn(x), LocalsIn(x));
    ChangedMore(s, u, wr + ({} + more), wr + more, CountersIn(x), CountersIn(x), LocalsIn(x), LocalsIn(x));
  }

  lemma {:induction false} BlockChanges(b: Block, scope: set<Variable>, inLoop: bool, s: Store, n: nat)
    requires BlockOk(b, scope, inLoop)
    ensures BlockFramed(b, s, n)
    decreases b, n, 1
  {
    if ExecBlock(b, s, n).Done? {
      var s', vs := Alloc(s, b.locals), DeclVars(b.locals);
      var t := ExecSeq(b.stms, s', n).st;
      AllocChanges(s, b.locals);
      ChangedMore(s, s', {}, {}, {}, CountersOf(b), ToSet(vs), LocalsOf(b));
      SeqChanges(b, 0, scope, inLoop, s', n);
      assert b.stms[0..] == b.stms;
      ChangedTwice(s, s', t, {}, TouchedBlock(b, s, n).wr, CountersOf(b), LocalsOf(b));
      assert ChangedOnly(t, Kill(t, vs), {}, CountersOf(b), LocalsOf(b));
      ChangedTwice(s, t, Kill(t, vs), {} + TouchedBlock(b, s, n).wr, {}, CountersOf(b), LocalsOf(b));
    }
  }

  lemma {:induction false} AllocChanges(s: Store, ds: seq<Decl>)
    ensures ChangedOnly(s, Alloc(s, ds), {}, {}, ToSet(DeclVars(ds)))
    decreases |ds|
  {
    if ds != [] {
      var s' := s + map c | c in ds[0].v.Cells() :: InitValue(ds[0], c);
      AllocChanges(s', ds[1..]);
      var vs := DeclVars(ds);
      assert vs[0] == ds[0].v && DeclVars(ds[1..]) == vs[1..] && vs == [vs[0]] + vs[1..];
    }
  }

  lemma {:induction false} SeqChanges(b: Block, i: nat, scope: set<Variable>, inLoop: bool, s: Store, n: nat)
    requires i <= |b.stms| && BlockOk(b, scope, inLoop) && ExecSeq(b.stms[i..], s, n).Done?
    ensures ChangedOnly(s, ExecSeq(b.stms[i..], s, n).st, TouchedSeq(b.stms[i..], s, n).wr, CountersOf(b), LocalsOf(b))
    decreases b, n, 0, |b.stms| - i
  {
    if i < |b.stms| {
      var x := b.stms[i];
      assert b.stms[i..][0] == x && b.stms[i..][1..] == b.stms[i + 1..];
      var q, wr := Exec(x, s, n), Touched(x, s, n).wr;
      RunChanges(x, scope + LocalCells(b), inLoop, s, n);
      ChangedMore(s, q.st, wr, wr, CountersIn(x), CountersOf(b), LocalsIn(x), LocalsOf(b));
      if q.sig == Normal {
        SeqChanges(b, i + 1, scope, inLoop, q.st, n);
        ChangedTwice(s, q.st, ExecSeq(b.stms[i..], s, n).st, wr, TouchedSeq(b.stms[i + 1..], q.st, n).wr, CountersOf(b), LocalsOf(b));
      }
    }
  }
}
