/** Facts in scope: which variables a fact vector speaks about and which pointees it may list.
    Everything the analysis does to a vector keeps one fact for every pointer in scope, and
    what a visit adds to the effects never clashes with the surroundings it was checked in. */
module Scopes {
  import opened Collections
  import opened Variables
  import opened Facts
  import opened PointsTo
  import opened Expressions
  import opened CGContexts
  import opened ExprSound
  import opened OrderIndependence

  function Colls(scope: set<Variable>): set<Variable> {
    set c | c in scope :: c.Coll()
  }

  function PtrVars(scope: set<Variable>): set<Variable> {
    set c | c in scope && c.IsPointer() :: c.Coll()
  }

  ghost predicate ScopeOk(scope: set<Variable>) {
    forall c :: c in scope ==> c.IsCell()
  }

  /** A pointee for a variable with `level` pointer levels. */
  predicate PointeeOk(p: Variable, level: int, scope: set<Variable>) {
    p.IsSpecial() || (p in Colls(scope) && p.Level() == level - 1)
  }

  ghost predicate FactScoped(f: Fact, scope: set<Variable>) {
    f.PointTo? && f.v in PtrVars(scope) && forall p :: p in f.pts ==> PointeeOk(p, f.v.Level(), scope)
  }

  ghost predicate Scoped(fs: FactVec, scope: set<Variable>) {
    forall f :: f in fs ==> FactScoped(f, scope)
  }

  ghost predicate Complete(fs: FactVec, scope: set<Variable>) {
    forall v :: v in PtrVars(scope) ==> Has(fs, v)
  }

  /** A well-formed fact vector with exactly one fact for every pointer variable in scope, whose
      pointees are in scope and of the pointed-to level. */
  ghost predicate FactsOk(fs: FactVec, scope: set<Variable>) {
    WellFormed(fs) && Scoped(fs, scope) && Complete(fs, scope)
  }

  lemma CollOfCell(c: Variable)
    requires c.IsCell()
    ensures !c.Coll().IsSpecial() && c.Coll().Level() == c.Level() && c.Coll().Coll() == c.Coll()
  {}

  lemma PointeesScoped(fs: FactVec, scope: set<Variable>, v: Variable, p: Variable)
    requires Scoped(fs, scope) && p in Pointees(fs, v)
    ensures PointeeOk(p, v.Level(), scope)
  {
    var i := RelatedIndex(fs, PointTo(v, []));
    assert fs[i] in fs;
  }

  /** Facts are about whole arrays, but the pointer test looks for one about the element itself: no
      dereference of an array element is ever accepted, wherever it points. */
  lemma ElementDereferenceRejected(v: Variable, k: nat, fs: FactVec, c: Context, scope: set<Variable>)
    requires FactsOk(fs, scope) && v.Item? && k > 0
    ensures VisitRead(v, k, fs, c).None? && VisitLhs(v, k, fs, c).None?
  {
    NoElementFacts(fs, scope);
    if Has(fs, v) {
      InVector(fs, RelatedIndex(fs, PointTo(v, [])));
      assert false;
    }
  }

  lemma NoElementFacts(fs: FactVec, scope: set<Variable>)
    requires Scoped(fs, scope)
    ensures forall f :: f in fs ==> !f.v.Item?
  {
    forall f | f in fs ensures !f.v.Item? { assert FactScoped(f, scope); }
  }

  lemma InVector(fs: FactVec, i: nat)
    requires i < |fs|
    ensures fs[i] in fs
  {}

  lemma FactsNotEmpty(fs: FactVec, scope: set<Variable>)
    requires FactsOk(fs, scope) && PtrVars(scope) != {}
    ensures fs != []
  {
    var v :| v in PtrVars(scope);
    assert Has(fs, v);
  }

  ghost predicate AllPointeesOk(vs: seq<Variable>, level: int, scope: set<Variable>) {
    forall p :: p in vs ==> PointeeOk(p, level, scope)
  }

  /** Dereferencing stays in scope and goes down one level at a time, and every pointer met on the
      way has a fact. */
  lemma {:induction false} DerefScoped(start: seq<Variable>, k: nat, level: nat, fs: FactVec, scope: set<Variable>)
    requires FactsOk(fs, scope) && ScopeOk(scope) && k <= level
    requires AllPointeesOk(start, level + 1, scope)
    ensures AllPointeesOk(Deref(start, k, fs), level + 1 - k, scope)
    ensures k < level ==> forall p :: p in Deref(start, k, fs) && !p.IsSpecial() ==> Has(fs, p)
    decreases k
  {
    if k > 0 {
      var next := PointeesOfAll(start, fs);
      forall p | p in next ensures PointeeOk(p, level, scope) {
        PointeesOfAllMembers(start, fs, [], p);
        var q :| q in start && !q.IsSpecial() && p in Pointees(fs, q);
        PointeesScoped(fs, scope, q, p);
      }
      DerefScoped(next, k - 1, level - 1, fs, scope);
    } else if level > 0 {
      forall p | p in start && !p.IsSpecial() ensures Has(fs, p) {
        PointerHasFact(p, scope);
      }
    }
  }

  lemma PointerHasFact(p: Variable, scope: set<Variable>)
    requires ScopeOk(scope) && p in Colls(scope) && p.Level() > 0
    ensures p in PtrVars(scope)
  {
    var c :| c in scope && c.Coll() == p;
    CollOfCell(c);
  }

  lemma {:induction false} RhsScoped(e: Expr, fs: FactVec, scope: set<Variable>)
    requires FactsOk(fs, scope) && ScopeOk(scope) && WellTyped(e, scope) && LevelOf(e) > 0
    requires RhsPointees(e, fs).Some?
    ensures AllPointeesOk(RhsPointees(e, fs).value, LevelOf(e), scope)
    decreases e
  {
    match e
    case Const(_, _) =>
    case Read(v, k) =>
      CollOfCell(v);
      assert v.Coll() in Colls(scope);
      if k >= 0 { DerefScoped([v.Coll()], k + 1, v.Level(), fs, scope); }
    case Assign(_, _, rhs, _) => RhsScoped(rhs, fs, scope);
    case Comma(_, r) => RhsScoped(r, fs, scope);
  }

  lemma JoinScoped(f: Fact, g: Fact, scope: set<Variable>)
    requires FactScoped(f, scope) && FactScoped(g, scope) && Related(f, g)
    ensures FactScoped(Join(f, g), scope)
  {
    forall p | p in Join(f, g).pts ensures PointeeOk(p, f.v.Level(), scope) {
      AddVarsMembers(f.pts, g.pts, p);
    }
  }

  lemma MergedScoped(fs: FactVec, n: Fact, scope: set<Variable>)
    requires Scoped(fs, scope) && FactScoped(n, scope)
    ensures Scoped(Merged(fs, n), scope) && Scoped(Renewed(fs, n), scope)
  {
    var i := RelatedIndex(fs, n);
    if i < |fs| {
      assert fs[i] in fs;
      JoinScoped(n, fs[i], scope);
    }
  }

  lemma {:induction false} MergedAllScoped(fs: FactVec, ns: FactVec, scope: set<Variable>)
    requires Scoped(fs, scope) && Scoped(ns, scope)
    ensures Scoped(MergedAll(fs, ns), scope)
    decreases |ns|
  {
    if ns != [] {
      assert ns[0] in ns;
      MergedScoped(fs, ns[0], scope);
      MergedAllScoped(Merged(fs, ns[0]), ns[1..], scope);
    }
  }

  lemma MergedAllOk(fs: FactVec, ns: FactVec, scope: set<Variable>)
    requires FactsOk(fs, scope) && WellFormed(ns) && Scoped(ns, scope)
    ensures FactsOk(MergedAll(fs, ns), scope)
  {
    MergedAllWellFormed(fs, ns);
    MergedAllScoped(fs, ns, scope);
    forall v | v in PtrVars(scope) ensures Has(MergedAll(fs, ns), v) {
      MergedAllMeaning(fs, ns, v);
    }
  }

  lemma AssignedOk(v: Variable, k: nat, rhs: Expr, fs: FactVec, scope: set<Variable>)
    requires FactsOk(fs, scope) && ScopeOk(scope) && v in scope && k <= v.Level()
    requires WellTyped(rhs, scope) && LevelOf(rhs) == v.Level() - k
    ensures FactsOk(AssignedFacts(v, k, rhs, fs), scope)
  {
    AssignedWellFormed(v, k, rhs, fs);
    if k < v.Level() && RhsPointees(rhs, fs).Some? {
      var pts := RhsPointees(rhs, fs).value;
      var targets := Deref([v.Coll()], k, fs);
      var facts := MakeFacts(targets, pts);
      RhsScoped(rhs, fs, scope);
      CollOfCell(v);
      assert v.Coll() in Colls(scope);
      DerefScoped([v.Coll()], k, v.Level(), fs, scope);
      forall f | f in facts ensures FactScoped(f, scope) {
        MakeFactsElements(targets, pts, f);
        PointerHasFact(f.v, scope);
      }
      AssignedKeeps(fs, facts, scope);
    }
  }

  lemma AssignedKeeps(fs: FactVec, facts: FactVec, scope: set<Variable>)
    requires Scoped(fs, scope) && Scoped(facts, scope) && Complete(fs, scope)
    ensures Scoped(MergedAll(fs, facts), scope) && Complete(MergedAll(fs, facts), scope)
    ensures facts != [] ==> Scoped(Renewed(fs, facts[0]), scope) && Complete(Renewed(fs, facts[0]), scope)
  {
    MergedAllScoped(fs, facts, scope);
    forall v | v in PtrVars(scope) ensures Has(MergedAll(fs, facts), v) { MergedAllMeaning(fs, facts, v); }
    if facts != [] {
      assert facts[0] in facts;
      MergedScoped(fs, facts[0], scope);
      forall v | v in PtrVars(scope) ensures Has(Renewed(fs, facts[0]), v) { PutMeaning(fs, facts[0], v); }
    }
  }

  /** A visit keeps the facts in scope: no fact appears, disappears, or leaves its type. */
  lemma {:induction false} VisitScoped(e: Expr, fs: FactVec, c: Context, scope: set<Variable>)
    requires FactsOk(fs, scope) && ScopeOk(scope) && WellTyped(e, scope)
    requires Visit(e, fs, c).Some?
    ensures FactsOk(Visit(e, fs, c).value.0, scope)
    decreases e, 0
  {
    match e
    case Const(_, _) =>
    case Read(_, _) =>
    case Assign(v, dst, rhs, _) =>
      VisitScoped(rhs, fs, c.Param(c.context), scope);
      AssignedOk(v, dst, rhs, Visit(rhs, fs, c.Param(c.context)).value.0, scope);
    case Comma(l, r) =>
      VisitScoped(l, fs, c, scope);
      VisitScoped(r, Visit(l, fs, c).value.0, Visit(l, fs, c).value.1, scope);
    case Logical(_, l, r) =>
      VisitScoped(l, fs, c, scope);
      var (fs1, c1) := Visit(l, fs, c).value;
      VisitScoped(r, fs1, c1, scope);
      MergedAllOk(Visit(r, fs1, c1).value.0, fs1, scope);
    case Op(_, args, _) =>
      VisitArgsScoped(args, 0, fs, c, c.context, scope);
  }

  lemma {:induction false} VisitArgsScoped(args: seq<Expr>, i: nat, fs: FactVec, c: Context, running: Effect, scope: set<Variable>)
    requires i <= |args| && FactsOk(fs, scope) && ScopeOk(scope)
    requires (forall j :: 0 <= j < |args| ==> WellTyped(args[j], scope)) && VisitArgs(args, i, fs, c, running).Some?
    ensures FactsOk(VisitArgs(args, i, fs, c, running).value.0, scope)
    decreases args, |args| - i
  {
    if i < |args| {
      VisitScoped(args[i], fs, c.Param(running), scope);
      var (fs1, p) := Visit(args[i], fs, c.Param(running)).value;
      VisitArgsScoped(args, i + 1, fs1, c.Merge(p.accum, true), running.Add(p.accum, false), scope);
    }
  }

  // ---------- effects ----------

  ghost predicate FitsAfter(c: Context, d: Context) {
    && (Fits(c.accum, c.context, c.noWrite) ==> Fits(d.accum, c.context, c.noWrite))
    && (Fits(c.stm, c.context, c.noWrite) ==> Fits(d.stm, c.context, c.noWrite))
  }

  lemma {:induction false} CheckEachFits(vs: seq<Variable>, write: bool, fs: FactVec, c: Context, d: Context)
    requires CheckEach(vs, write, fs, c) == Some(d)
    ensures FitsAfter(c, d) && d.context == c.context && d.noWrite == c.noWrite
    decreases |vs|
  {
    if vs != [] {
      var r := if vs[0].IsSpecial() then Some(c)
               else if write then CheckWrite(vs[0], fs, c) else CheckRead(vs[0], fs, c);
      CheckEachFits(vs[1..], write, fs, r.value, d);
    }
  }

  lemma {:induction false} FollowFits(ptrs: seq<Variable>, k: nat, write: bool, fs: FactVec, c: Context, d: Context)
    requires Follow(ptrs, k, write, fs, c) == Some(d)
    ensures FitsAfter(c, d) && d.context == c.context && d.noWrite == c.noWrite
    decreases k
  {
    if k > 0 {
      var next := PointeesOfAll(ptrs, fs);
      var c' := CheckEach(next, write && k == 1, fs, c).value;
      CheckEachFits(next, write && k == 1, fs, c, c');
      FollowFits(next, k - 1, write, fs, c', d);
    }
  }

  /** What a visit adds to the effects fits the surroundings it was checked against. */
  lemma {:induction false} VisitFits(e: Expr, fs: FactVec, c: Context)
    requires WellFormed(fs) && Visit(e, fs, c).Some?
    ensures FitsAfter(c, Visit(e, fs, c).value.1)
    decreases e, 0
  {
    VisitKeeps(e, fs, c);
    match e
    case Const(_, _) =>
    case Read(v, k) =>
      if k > 0 { FollowFits([v.Coll()], k, false, fs, CheckRead(v, fs, c).value, Visit(e, fs, c).value.1); }
    case Assign(v, dst, rhs, _) =>
      VisitFits(rhs, fs, c.Param(c.context));
      VisitKeeps(rhs, fs, c.Param(c.context));
      AssignFits(e, fs, c);
    case Comma(l, r) =>
      VisitKeeps(l, fs, c);
      VisitFits(l, fs, c);
      VisitFits(r, Visit(l, fs, c).value.0, Visit(l, fs, c).value.1);
    case Logical(_, l, r) =>
      VisitKeeps(l, fs, c);
      VisitFits(l, fs, c);
      VisitFits(r, Visit(l, fs, c).value.0, Visit(l, fs, c).value.1);
    case Op(_, args, _) =>
      VisitArgsFit(args, 0, fs, c, c.context);
  }

  /** The same surroundings and write restrictions, whatever has been accumulated. */
  predicate Alike(c: Context, d: Context) { c.context == d.context && c.noWrite == d.noWrite }

  /** If the effect of the statement was the same, it still is. */
  predicate SameStm(c: Context, d: Context, c': Context, d': Context) { c.stm == d.stm ==> c'.stm == d'.stm }

  lemma {:induction false} CheckEachAlike(vs: seq<Variable>, write: bool, fs: FactVec, c: Context, d: Context)
    requires Alike(c, d)
    ensures CheckEach(vs, write, fs, c).Some? <==> CheckEach(vs, write, fs, d).Some?
    ensures CheckEach(vs, write, fs, c).Some? ==>
      var c', d' := CheckEach(vs, write, fs, c).value, CheckEach(vs, write, fs, d).value; Alike(c', d') && SameStm(c, d, c', d')
    decreases |vs|
  {
    if vs != [] {
      var r := if vs[0].IsSpecial() then Some(c)
               else if write then CheckWrite(vs[0], fs, c) else CheckRead(vs[0], fs, c);
      var q := if vs[0].IsSpecial() then Some(d)
               else if write then CheckWrite(vs[0], fs, d) else CheckRead(vs[0], fs, d);
      if r.Some? { CheckEachAlike(vs[1..], write, fs, r.value, q.value); }
    }
  }

  lemma {:induction false} FollowAlike(ptrs: seq<Variable>, k: nat, write: bool, fs: FactVec, c: Context, d: Context)
    requires Alike(c, d)
    ensures Follow(ptrs, k, write, fs, c).Some? <==> Follow(ptrs, k, write, fs, d).Some?
    ensures Follow(ptrs, k, write, fs, c).Some? ==>
      var c', d' := Follow(ptrs, k, write, fs, c).value, Follow(ptrs, k, write, fs, d).value; Alike(c', d') && SameStm(c, d, c', d')
    decreases k
  {
    if k > 0 {
      var next := PointeesOfAll(ptrs, fs);
      CheckEachAlike(next, write && k == 1, fs, c, d);
      if !BadPointees(next) && CheckEach(next, write && k == 1, fs, c).Some? {
        FollowAlike(next, k - 1, write, fs, CheckEach(next, write && k == 1, fs, c).value, CheckEach(next, write && k == 1, fs, d).value);
      }
    }
  }

  /** Whether a visit succeeds, with which facts, and what it adds to the effect of the statement do not
      depend on what has been accumulated. */
  lemma {:induction false} VisitAlike(e: Expr, fs: FactVec, c: Context, d: Context)
    requires Alike(c, d)
    ensures Visit(e, fs, c).Some? <==> Visit(e, fs, d).Some?
    ensures Visit(e, fs, c).Some? ==>
      && Visit(e, fs, c).value.0 == Visit(e, fs, d).value.0 && Alike(Visit(e, fs, c).value.1, Visit(e, fs, d).value.1)
      && SameStm(c, d, Visit(e, fs, c).value.1, Visit(e, fs, d).value.1)
    decreases e, 0
  {
    match e
    case Const(_, _) =>
    case Read(v, k) =>
      if k > 0 && CheckRead(v, fs, c).Some? {
        FollowAlike([v.Coll()], k, false, fs, CheckRead(v, fs, c).value, CheckRead(v, fs, d).value);
      }
    case Assign(_, _, _, _) =>
      assert c.Param(c.context) == d.Param(d.context);
    case Comma(l, r) =>
      VisitAlike(l, fs, c, d);
      if Visit(l, fs, c).Some? { VisitAlike(r, Visit(l, fs, c).value.0, Visit(l, fs, c).value.1, Visit(l, fs, d).value.1); }
    case Logical(_, l, r) =>
      VisitAlike(l, fs, c, d);
      if Visit(l, fs, c).Some? { VisitAlike(r, Visit(l, fs, c).value.0, Visit(l, fs, c).value.1, Visit(l, fs, d).value.1); }
    case Op(_, args, _) => VisitArgsAlike(args, 0, fs, c, d, c.context);
  }

  lemma {:induction false} VisitArgsAlike(args: seq<Expr>, i: nat, fs: FactVec, c: Context, d: Context, running: Effect)
    requires Alike(c, d) && i <= |args|
    ensures VisitArgs(args, i, fs, c, running).Some? <==> VisitArgs(args, i, fs, d, running).Some?
    ensures VisitArgs(args, i, fs, c, running).Some? ==>
      && VisitArgs(args, i, fs, c, running).value.0 == VisitArgs(args, i, fs, d, running).value.0
      && Alike(VisitArgs(args, i, fs, c, running).value.1, VisitArgs(args, i, fs, d, running).value.1)
      && SameStm(c, d, VisitArgs(args, i, fs, c, running).value.1, VisitArgs(args, i, fs, d, running).value.1)
    decreases args, |args| - i
  {
    if i < |args| {
      assert c.Param(running) == d.Param(running);
      if Visit(args[i], fs, c.Param(running)).Some? {
        var (fs1, p) := Visit(args[i], fs, c.Param(running)).value;
        VisitArgsAlike(args, i + 1, fs1, c.Merge(p.accum, true), d.Merge(p.accum, true), running.Add(p.accum, false));
      }
    }
  }

  lemma AssignFits(e: Expr, fs: FactVec, c: Context)
    requires e.Assign? && Visit(e, fs, c).Some?
    requires FitsAfter(c.Param(c.context), Visit(e.rhs, fs, c.Param(c.context)).value.1)
    ensures FitsAfter(c, Visit(e, fs, c).value.1)
  {
    var Assign(v, dst, rhs, _) := e;
    var (fs1, r) := Visit(rhs, fs, c.Param(c.context)).value;
    var running := c.context.(writeVars := c.context.writeVars + r.accum.lhsWriteVars);
    var lc := c.Param(running).(stm := r.stm);
    var l := VisitLhs(v, dst, fs1, lc).value;
    assert Fits(l.accum, running, c.noWrite) by {
      if dst > 0 {
        var lc' := CheckRead(v, fs1, lc).value;
        FollowFits([v.Coll()], dst, true, fs1, lc', Follow([v.Coll()], dst, true, fs1, lc').value);
      }
    }
  }

  lemma {:induction false} VisitArgsFit(args: seq<Expr>, i: nat, fs: FactVec, c: Context, running: Effect)
    requires i <= |args| && WellFormed(fs) && VisitArgs(args, i, fs, c, running).Some?
    requires c.context.readVars <= running.readVars && c.context.writeVars <= running.writeVars
    ensures FitsAfter(c, VisitArgs(args, i, fs, c, running).value.1)
    decreases args, |args| - i
  {
    if i < |args| {
      VisitKeeps(args[i], fs, c.Param(running));
      VisitFits(args[i], fs, c.Param(running));
      var (fs1, p) := Visit(args[i], fs, c.Param(running)).value;
      VisitArgsFit(args, i + 1, fs1, c.Merge(p.accum, true), running.Add(p.accum, false));
    }
  }
}
