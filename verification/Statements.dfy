/** Statements and blocks of generated programs, and their execution. */
module Statements {
  import opened Collections
  import opened Variables
  import opened Expressions

  /** How one element of a local pointer variable is initialised. */
  datatype Init = Uninit | Null | AddrOf(w: Variable)

  /** A local variable. An array takes each element's initial value from the list `inits`. */
  datatype Decl = Decl(v: Variable, inits: seq<Init>, pick: nat -> nat)

  datatype Stmt =
    | ExprStmt(id: nat, e: Expr)
    | If(id: nat, test: Expr, thn: Block, els: Block)
    | For(id: nat, init: Expr, iv: Variable, cond: int -> bool, step: int -> int, body: Block)
    | Break(id: nat, test: Expr)
    | Continue(id: nat, test: Expr)

  datatype Block = Block(id: nat, locals: seq<Decl>, stms: seq<Stmt>)

  function DeclVars(ds: seq<Decl>): (vs: seq<Variable>)
    ensures |vs| == |ds| && forall i :: 0 <= i < |ds| ==> vs[i] == ds[i].v
  {
    seq(|ds|, i requires 0 <= i < |ds| => ds[i].v)
  }

  function LocalCells(b: Block): set<Variable> { CellsOf(DeclVars(b.locals)) }

  // ---------- well-formed programs ----------

  predicate InitOk(i: Init, level: nat, scope: set<Variable>) {
    i.AddrOf? ==> i.w in scope && i.w.Level() == level - 1
  }

  ghost predicate DeclOk(d: Decl, scope: set<Variable>) {
    && (d.v.Plain? || (d.v.Array? && d.v.size > 0))
    && d.inits != []
    && forall i :: 0 <= i < |d.inits| ==> InitOk(d.inits[i], d.v.Level(), scope)
  }

  /** Locals are new variables, declared once, whose initialisers name storage in scope. */
  ghost predicate LocalsOk(b: Block, scope: set<Variable>) {
    && LocalCells(b) !! scope
    && NoDup(DeclVars(b.locals))
    && forall i :: 0 <= i < |b.locals| ==> DeclOk(b.locals[i], scope + LocalCells(b))
  }

  ghost predicate ExprOk(e: Expr, scope: set<Variable>) {
    WellTyped(e, scope) && OrdersOk(e)
  }

  ghost predicate StmtOk(x: Stmt, scope: set<Variable>, inLoop: bool)
    decreases x
  {
    match x
    case ExprStmt(_, e) => e.Assign? && ExprOk(e, scope)
    case If(_, test, thn, els) => ExprOk(test, scope) && BlockOk(thn, scope, inLoop) && BlockOk(els, scope, inLoop)
    case For(_, init, iv, _, _, body) =>
      init.Assign? && ExprOk(init, scope) && iv in scope && iv.Level() == 0 && BlockOk(body, scope, true)
    case Break(_, test) => inLoop && ExprOk(test, scope)
    case Continue(_, test) => inLoop && ExprOk(test, scope)
  }

  ghost predicate BlockOk(b: Block, scope: set<Variable>, inLoop: bool)
    decreases b
  {
    LocalsOk(b, scope) && forall i :: 0 <= i < |b.stms| ==> StmtOk(b.stms[i], scope + LocalCells(b), inLoop)
  }

  // ---------- storage of locals ----------

  function InitValue(d: Decl, c: Variable): Value {
    if d.v.Level() == 0 || d.inits == [] then Num(0)
    else
      match d.inits[d.pick(if c.Item? then c.idx else 0) % |d.inits|]
      case Uninit => DEAD
      case Null => Ptr(NullPtr)
      case AddrOf(w) => Ptr(w)
  }

  function Alloc(s: Store, ds: seq<Decl>): Store
    decreases |ds|
  {
    if ds == [] then s
    else Alloc(s + map c | c in ds[0].v.Cells() :: InitValue(ds[0], c), ds[1..])
  }

  /** The store once the variables `vs` are gone: pointers to them are dead. */
  function Kill(s: Store, vs: seq<Variable>): Store {
    map c | c in s && c.Coll() !in vs ::
      if s[c].Ptr? && s[c].target.Coll() in vs then DEAD else s[c]
  }

  // ---------- execution ----------

  datatype Signal = Normal | Broke | Continued

  /** `Stuck` is undefined behaviour; `OutOfFuel` is a run cut short. */
  datatype Result = Stuck | OutOfFuel | Done(sig: Signal, st: Store)

  function Exec(x: Stmt, s: Store, fuel: nat): Result
    decreases x, fuel, 1
  {
    match x
    case ExprStmt(_, e) =>
      (match Eval(e, s) case None => Stuck case Some(o) => Done(Normal, o.st))
    case If(_, test, thn, els) =>
      (match Eval(test, s)
       case None => Stuck
       case Some(o) => if Truth(o.fp.val) then ExecBlock(thn, o.st, fuel) else ExecBlock(els, o.st, fuel))
    case For(_, init, _, _, _, _) =>
      (match Eval(init, s) case None => Stuck case Some(o) => ExecLoop(x, o.st, fuel))
    case Break(_, test) =>
      (match Eval(test, s)
       case None => Stuck
       case Some(o) => Done(if Truth(o.fp.val) then Broke else Normal, o.st))
    case Continue(_, test) =>
      (match Eval(test, s)
       case None => Stuck
       case Some(o) => Done(if Truth(o.fp.val) then Continued else Normal, o.st))
  }

  /** The iterations of a `for` loop; each one uses up fuel. */
  function ExecLoop(x: Stmt, s: Store, fuel: nat): Result
    requires x.For?
    decreases x, fuel, 0
  {
    if fuel == 0 then OutOfFuel
    else if x.iv !in s || !s[x.iv].Num? then Stuck
    else if !x.cond(s[x.iv].n) then Done(Normal, s)
    else
      match ExecBlock(x.body, s, fuel)
      case Stuck => Stuck
      case OutOfFuel => OutOfFuel
      case Done(Broke, t) => Done(Normal, t)
      case Done(_, t) =>
        if x.iv !in t || !t[x.iv].Num? then Stuck
        else ExecLoop(x, t[x.iv := Num(x.step(t[x.iv].n))], fuel - 1)
  }

  function ExecBlock(b: Block, s: Store, fuel: nat): Result
    decreases b, fuel, 1
  {
    match ExecSeq(b.stms, Alloc(s, b.locals), fuel)
    case Stuck => Stuck
    case OutOfFuel => OutOfFuel
    case Done(sig, t) => Done(sig, Kill(t, DeclVars(b.locals)))
  }

  function ExecSeq(xs: seq<Stmt>, s: Store, fuel: nat): Result
    decreases xs, fuel, 0
  {
    if xs == [] then Done(Normal, s)
    else
      match Exec(xs[0], s, fuel)
      case Stuck => Stuck
      case OutOfFuel => OutOfFuel
      case Done(Normal, t) => ExecSeq(xs[1..], t, fuel)
      case Done(sig, t) => Done(sig, t)
  }

  // ---------- program points ----------

  function Ids(x: Stmt): set<nat>
    decreases x
  {
    {x.id} + match x
             case If(_, _, thn, els) => BlockIds(thn) + BlockIds(els)
             case For(_, _, _, _, _, body) => BlockIds(body)
             case _ => {}
  }

  function BlockIds(b: Block): set<nat>
    decreases b
  {
    {b.id} + SeqIds(b.stms)
  }

  function SeqIds(xs: seq<Stmt>): set<nat>
    decreases xs
  {
    set i, id | 0 <= i < |xs| && id in Ids(xs[i]) :: id
  }

  /** Every program point has its own number. */
  predicate Distinct(x: Stmt)
    decreases x
  {
    match x
    case If(id, _, thn, els) =>
      BlockDistinct(thn) && BlockDistinct(els) && id !in BlockIds(thn) + BlockIds(els) && BlockIds(thn) !! BlockIds(els)
    case For(id, _, _, _, _, body) => BlockDistinct(body) && id !in BlockIds(body)
    case _ => true
  }

  predicate BlockDistinct(b: Block)
    decreases b
  {
    && b.id !in SeqIds(b.stms)
    && (forall i :: 0 <= i < |b.stms| ==> Distinct(b.stms[i]))
    && forall i, j :: 0 <= i < j < |b.stms| ==> Ids(b.stms[i]) !! Ids(b.stms[j])
  }

  /** The statements that leave through signal `sig` to the loop around `x`. */
  function Jumps(x: Stmt, sig: Signal): (r: set<nat>)
    ensures r <= Ids(x)
    decreases x
  {
    match x
    case If(_, _, thn, els) => BlockJumps(thn, sig) + BlockJumps(els, sig)
    case Break(id, _) => if sig == Broke then {id} else {}
    case Continue(id, _) => if sig == Continued then {id} else {}
    case _ => {}
  }

  function BlockJumps(b: Block, sig: Signal): (r: set<nat>)
    ensures r <= BlockIds(b)
    decreases b
  {
    SeqJumps(b.stms, sig)
  }

  function SeqJumps(xs: seq<Stmt>, sig: Signal): (r: set<nat>)
    ensures r <= SeqIds(xs)
    decreases xs
  {
    set i, id | 0 <= i < |xs| && id in Jumps(xs[i], sig) :: id
  }

  /** Control never falls through: the last statement always jumps. */
  predicate MustJump(x: Stmt)
    decreases x
  {
    match x
    case If(_, _, thn, els) => BlockMustJump(thn) && BlockMustJump(els)
    case Break(_, test) => test.Const? && test.level == 0 && test.n != 0
    case Continue(_, test) => test.Const? && test.level == 0 && test.n != 0
    case _ => false
  }

  predicate BlockMustJump(b: Block)
    decreases b
  {
    b.stms != [] && MustJump(b.stms[|b.stms| - 1])
  }

  /** The statements with which `x` can end; `None` for an empty block. */
  function Ends(x: Stmt): seq<Option<Stmt>>
    decreases x
  {
    match x
    case If(_, _, thn, els) => BlockEnds(thn) + BlockEnds(els)
    case _ => [Some(x)]
  }

  function BlockEnds(b: Block): seq<Option<Stmt>>
    decreases b
  {
    if b.stms == [] then [None] else Ends(b.stms[|b.stms| - 1])
  }

  /** A break or continue whose test is a constant other than 0. */
  ghost predicate AlwaysJumps(x: Stmt) { (x.Break? || x.Continue?) && exists n :: n != 0 && x.test == Const(0, n) }

  ghost predicate AllJump(ends: seq<Option<Stmt>>) { forall y :: y in ends ==> y.Some? && AlwaysJumps(y.value) }

  lemma AllJumpConcat(a: seq<Option<Stmt>>, b: seq<Option<Stmt>>)
    ensures AllJump(a + b) <==> AllJump(a) && AllJump(b)
  {
    assert forall y :: y in a + b <==> y in a || y in b;
  }

  lemma AllJumpOne(y: Option<Stmt>)
    ensures AllJump([y]) <==> y.Some? && AlwaysJumps(y.value)
  {
    assert y in [y];
  }

  /** A statement must jump exactly if every statement it can end with is a jump that is always taken. */
  lemma {:induction false} MustJumpExactly(x: Stmt)
    ensures MustJump(x) <==> AllJump(Ends(x))
    decreases x, 1
  {
    match x
    case If(_, _, thn, els) =>
      BlockMustJumpExactly(thn);
      BlockMustJumpExactly(els);
      AllJumpConcat(BlockEnds(thn), BlockEnds(els));
    case Break(_, test) =>
      AllJumpOne(Some(x));
      if MustJump(x) { assert test == Const(0, test.n); }
    case Continue(_, test) =>
      AllJumpOne(Some(x));
      if MustJump(x) { assert test == Const(0, test.n); }
    case _ => AllJumpOne(Some(x));
  }

  lemma {:induction false} BlockMustJumpExactly(b: Block)
    ensures BlockMustJump(b) <==> AllJump(BlockEnds(b))
    decreases b, 0
  {
    AllJumpOne(None);
    if b.stms != [] { MustJumpExactly(b.stms[|b.stms| - 1]); }
  }

  lemma {:induction false} MustJumpMeaning(x: Stmt, s: Store, fuel: nat)
    requires MustJump(x)
    ensures Exec(x, s, fuel).Done? ==> Exec(x, s, fuel).sig != Normal
    decreases x, 1
  {
    match x
    case If(_, test, thn, els) =>
      var o := Eval(test, s);
      if o.Some? {
        BlockMustJumpMeaning(thn, o.value.st, fuel);
        BlockMustJumpMeaning(els, o.value.st, fuel);
      }
    case _ =>
  }

  lemma {:induction false} BlockMustJumpMeaning(b: Block, s: Store, fuel: nat)
    requires BlockMustJump(b)
    ensures ExecBlock(b, s, fuel).Done? ==> ExecBlock(b, s, fuel).sig != Normal
    decreases b, 1
  {
    SeqMustJumpMeaning(b.stms, Alloc(s, b.locals), fuel);
  }

  lemma {:induction false} SeqMustJumpMeaning(xs: seq<Stmt>, s: Store, fuel: nat)
    requires xs != [] && MustJump(xs[|xs| - 1])
    ensures ExecSeq(xs, s, fuel).Done? ==> ExecSeq(xs, s, fuel).sig != Normal
    decreases xs, 0
  {
    if |xs| == 1 {
      MustJumpMeaning(xs[0], s, fuel);
    } else {
      assert xs[1..][|xs[1..]| - 1] == xs[|xs| - 1];
      var r := Exec(xs[0], s, fuel);
      if r.Done? && r.sig == Normal { SeqMustJumpMeaning(xs[1..], r.st, fuel); }
    }
  }
}
