/** Evaluation order. */
module OrderIndependence {
  // The main results about expressions: an accepted expression has defined behaviour, its facts and
  // effects are accounted for, and the order of its unsequenced evaluations does not matter.

  import opened Collections
  import opened Variables
  import opened Facts
  import opened PointsTo
  import opened Expressions
  import opened CGContexts
  import opened ExprSound

  /** What an accepted visit from facts that cover `s` says about the evaluation `o` from `s`. */
  ghost predicate Good(e: Expr, s: Store, o: Out, fs: FactVec, c: Context, d: Context) {
    && Framed(s, o)
    && StoreOk(o.st) && WellFormed(fs) && Covers(fs, o.st)
    && HasType(o.fp.val, LevelOf(e), s.Keys)
    && Accounted(o.fp, c, d) && Extends(c, d)
    && (LevelOf(e) > 0 ==> Recoverable(e, o.st, o.fp.val))
  }

  /** What both evaluation orders of an expression and its canonical form yield from `s`. */
  ghost predicate SameAsCanon(e: Expr, s: Store) {
    Eval(Canon(e), s) == Eval(e, s)
  }

  lemma {:induction false} CanonOk(e: Expr, scope: set<Variable>)
    requires WellTyped(e, scope)
    ensures WellTyped(Canon(e), scope) && OrdersOk(Canon(e)) && LevelOf(Canon(e)) == LevelOf(e)
    decreases e
  {
    match e
    case Const(_, _) =>
    case Read(_, _) =>
    case Assign(_, _, rhs, _) => CanonOk(rhs, scope);
    case Comma(l, r) =>
      CanonOk(l, scope);
      CanonOk(r, scope);
    case Logical(_, l, r) =>
      CanonOk(l, scope);
      CanonOk(r, scope);
    case Op(_, args, _) =>
      forall i | 0 <= i < |args| ensures WellTyped(Canon(args[i]), scope) && OrdersOk(Canon(args[i])) {
        CanonOk(args[i], scope);
      }
  }

  // ---------- unsequenced operands ----------

  function Upto(n: nat): (r: set<nat>)
    ensures forall i: nat :: i in r <==> i < n
    ensures |r| == n
  {
    if n == 0 then {} else Upto(n - 1) + {n - 1}
  }

  /** `outs[i]` is the outcome of operand `i` evaluated on its own, before all others. */
  ghost predicate Alone(args: seq<Expr>, outs: seq<Out>, s: Store) {
    |outs| <= |args| && forall i :: 0 <= i < |outs| ==> AloneAt(args[i], outs[i], s)
  }

  ghost predicate AloneAt(e: Expr, o: Out, s: Store) {
    OrdersOk(e) && Eval(e, s) == Some(o) && Framed(s, o) && SameAsCanon(e, s)
  }

  ghost predicate NoRaces(outs: seq<Out>) {
    forall i, j :: 0 <= i < |outs| && 0 <= j < |outs| && i != j ==> !Conflict(outs[i].fp, outs[j].fp)
  }

  /** What the operands in `done` have made of location `x`. */
  ghost predicate MergedAt(t: Store, s: Store, outs: seq<Out>, done: set<nat>, x: Variable)
    requires x in s && x in t
  {
    && (forall i :: i in done && i < |outs| && x in outs[i].fp.wr ==> x in outs[i].st && t[x] == outs[i].st[x])
    && ((forall i :: i in done && i < |outs| ==> x !in outs[i].fp.wr) ==> t[x] == s[x])
  }

  /** `t` is `s` with the changes of the operands in `done`, whatever their order. */
  ghost predicate MergedBy(t: Store, s: Store, outs: seq<Out>, done: set<nat>) {
    && t.Keys == s.Keys
    && forall x {:trigger MergedAt(t, s, outs, done, x)} :: x in s ==> MergedAt(t, s, outs, done, x)
  }

  lemma MergedByUnique(t: Store, u: Store, s: Store, outs: seq<Out>, done: set<nat>)
    requires MergedBy(t, s, outs, done) && MergedBy(u, s, outs, done)
    ensures t == u
  {
    forall x | x in s ensures t[x] == u[x] {
      assert MergedAt(t, s, outs, done, x) && MergedAt(u, s, outs, done, x);
    }
  }

  lemma MergedByStep(t: Store, u: Store, s: Store, outs: seq<Out>, done: set<nat>, i: nat)
    requires i < |outs| && i !in done && NoRaces(outs) && outs[i].st.Keys == s.Keys
    requires MergedBy(t, s, outs, done) && u == Patch(t, outs[i].st, outs[i].fp.wr)
    ensures MergedBy(u, s, outs, done + {i})
  {
    forall x | x in s ensures MergedAt(u, s, outs, done + {i}, x) {
      assert MergedAt(t, s, outs, done, x);
      forall j | j in done && j < |outs| ensures !(x in outs[j].fp.wr && x in outs[i].fp.wr) {
        assert !Conflict(outs[j].fp, outs[i].fp);
      }
      assert i in done + {i};
      assert forall j :: j in done ==> j in done + {i};
    }
  }

  lemma UntouchedReads(t: Store, s: Store, outs: seq<Out>, done: set<nat>, i: nat)
    requires i < |outs| && i !in done && NoRaces(outs) && MergedBy(t, s, outs, done)
    ensures AgreeOn(s, t, outs[i].fp.rd)
  {
    forall x | x in outs[i].fp.rd && x in s ensures s[x] == t[x] {
      assert MergedAt(t, s, outs, done, x);
      forall j | j in done && j < |outs| ensures x !in outs[j].fp.wr {
        assert !Conflict(outs[j].fp, outs[i].fp);
      }
    }
  }

  lemma NextOperand(args: seq<Expr>, outs: seq<Out>, i: nat, s: Store, t: Store, done: set<nat>) returns (u: Store)
    requires |outs| == |args| && Alone(args, outs, s) && NoRaces(outs)
    requires i < |args| && i !in done && MergedBy(t, s, outs, done)
    ensures Eval(args[i], t) == Some(Out(outs[i].fp, u)) && MergedBy(u, s, outs, done + {i})
  {
    assert AloneAt(args[i], outs[i], s);
    UntouchedReads(t, s, outs, done, i);
    EvalFrame(args[i], s, t);
    u := Eval(args[i], t).value.st;
    MergedByStep(t, u, s, outs, done, i);
  }

  /** Race-free operands may be evaluated in any order: each sees what it would see alone, and the
      final store is the merge of all their changes. */
  lemma {:induction false} AnyOrder(args: seq<Expr>, outs: seq<Out>, order: seq<nat>, s: Store, t: Store, done: set<nat>, all: set<nat>)
    returns (m: map<nat, Footprint>, u: Store)
    requires |outs| == |args| && Alone(args, outs, s) && NoRaces(outs)
    requires NoDup(order) && (forall i :: i in order ==> i < |args| && i !in done)
    requires MergedBy(t, s, outs, done) && all == done + ToSet(order)
    ensures EvalOrder(args, order, t) == Some((m, u))
    ensures m.Keys == ToSet(order) && forall i :: i in m ==> i < |outs| && m[i] == outs[i].fp
    ensures MergedBy(u, s, outs, all)
    decreases |order|
  {
    if order == [] {
      assert all == done;
      m, u := map[], t;
    } else {
      var i, rest := order[0], order[1..];
      assert i in order;
      var v := NextOperand(args, outs, i, s, t, done);
      forall j | j in rest ensures j < |args| && j !in done + {i} {
        var k :| 0 <= k < |rest| && rest[k] == j;
        assert order[k + 1] == j && order[0] != order[k + 1];
        assert j in order;
      }
      assert ToSet(order) == {i} + ToSet(rest) by { assert order == [i] + rest; }
      m, u := AnyOrder(args, outs, rest, s, v, done + {i}, all);
      m := m[i := outs[i].fp];
    }
  }

  lemma OrderCoversAll(order: seq<nat>, n: nat)
    requires IsOrder(order, n)
    ensures ToSet(order) == Upto(n)
  {
    NoDupCard(order);
    SubsetCard(ToSet(order), Upto(n));
  }

  /** The effects of an operand as the visit has recorded them. */
  ghost predicate Recorded(fp: Footprint, running: Effect, c: Context, d: Context) {
    && Accounted(fp, c, d)
    && (forall x :: x in fp.rd ==> x.Coll() in running.readVars)
    && (forall x :: x in fp.wr ==> x.Coll() in running.writeVars)
  }

  /** The induction state of the visit of an operand list, after the operands with outcomes `outs`. */
  ghost predicate ArgsState(args: seq<Expr>, outs: seq<Out>, fs: FactVec, c: Context, d: Context, running: Effect, s: Store, t: Store) {
    Alone(args, outs, s) && OutsState(outs, fs, c, d, running, s, t)
  }

  ghost predicate OutsState(outs: seq<Out>, fs: FactVec, c: Context, d: Context, running: Effect, s: Store, t: Store) {
    && StoreOk(t) && WellFormed(fs) && Covers(fs, t)
    && NoRaces(outs) && MergedBy(t, s, outs, Upto(|outs|))
    && Extends(c, d) && c.context.readVars <= running.readVars && c.context.writeVars <= running.writeVars
    && forall j :: 0 <= j < |outs| ==> Recorded(outs[j].fp, running, c, d)
  }

  /** An accepted expression is race-free, meets no null or dead pointer, keeps the facts and the
      effects sound, and evaluates to the same value, accesses and store in every order. */
  lemma {:induction false} VisitSound(e: Expr, fs: FactVec, c: Context, s: Store)
    requires WellTyped(e, s.Keys) && OrdersOk(e)
    requires StoreOk(s) && WellFormed(fs) && Covers(fs, s)
    requires Visit(e, fs, c).Some?
    ensures Eval(e, s).Some?
    ensures Good(e, s, Eval(e, s).value, Visit(e, fs, c).value.0, c, Visit(e, fs, c).value.1)
    ensures SameAsCanon(e, s)
    decreases e, 0
  {
    match e
    case Const(_, _) =>
    case Read(_, _) =>
      ReadSound(e, fs, c, s);
    case Assign(_, _, rhs, _) =>
      VisitSound(rhs, fs, c.Param(c.context), s);
      AssignSound(e, fs, c, s);
    case Comma(l, r) =>
      VisitSound(l, fs, c, s);
      var (fs1, c1) := Visit(l, fs, c).value;
      VisitSound(r, fs1, c1, Eval(l, s).value.st);
      CommaSound(e, fs, c, s);
    case Logical(isAnd, l, r) =>
      VisitSound(l, fs, c, s);
      var (fs1, c1) := Visit(l, fs, c).value;
      var a := Eval(l, s).value;
      if Truth(a.fp.val) == isAnd { VisitSound(r, fs1, c1, a.st); }
      LogicalSound(e, fs, c, s);
    case Op(_, args, _) =>
      StartMerged(s, []);
      assert Upto(0) == {};
      var (fs', d) := Visit(e, fs, c).value;
      var outs, running, t := ArgsSound(args, [], fs, c, c, c.context, s, s, fs', d);
      OpSound(e, outs, fs', c, d, running, s, t);
  }

  lemma ReadSound(e: Expr, fs: FactVec, c: Context, s: Store)
    requires e.Read? && WellTyped(e, s.Keys) && Visit(e, fs, c).Some?
    requires StoreOk(s) && WellFormed(fs) && Covers(fs, s)
    ensures Eval(e, s).Some? && Good(e, s, Eval(e, s).value, fs, c, Visit(e, fs, c).value.1)
  {
    var Read(v, k) := e;
    CellFacts(s, v);
    if k >= 0 {
      VisitReadOk(v, k, fs, s, c);
      ChaseCovered(fs, s, v, k, [v.Coll()]);
      CellFacts(s, Chase(s, v, k).value);
    }
  }

  lemma CommaSound(e: Expr, fs: FactVec, c: Context, s: Store)
    requires e.Comma? && Visit(e, fs, c).Some? && Eval(e, s).Some?
    requires var (fs1, c1) := Visit(e.l, fs, c).value; var (fs2, c2) := Visit(e, fs, c).value;
      var a := Eval(e.l, s).value; var b := Eval(e.r, a.st).value;
      Good(e.l, s, a, fs1, c, c1) && Good(e.r, a.st, b, fs2, c1, c2) && SameAsCanon(e.l, s) && SameAsCanon(e.r, a.st)
    ensures Good(e, s, Eval(e, s).value, Visit(e, fs, c).value.0, c, Visit(e, fs, c).value.1)
    ensures SameAsCanon(e, s)
  {}

  lemma LogicalSound(e: Expr, fs: FactVec, c: Context, s: Store)
    requires e.Logical? && Visit(e, fs, c).Some? && Eval(e.l, s).Some? && SameAsCanon(e.l, s)
    requires var (fs1, c1) := Visit(e.l, fs, c).value; var (fs2, c2) := Visit(e.r, fs1, c1).value;
      var a := Eval(e.l, s).value;
      && Good(e.l, s, a, fs1, c, c1)
      && (Truth(a.fp.val) == e.isAnd ==>
            Eval(e.r, a.st).Some? && Good(e.r, a.st, Eval(e.r, a.st).value, fs2, c1, c2) && SameAsCanon(e.r, a.st))
    ensures Eval(e, s).Some?
    ensures Good(e, s, Eval(e, s).value, Visit(e, fs, c).value.0, c, Visit(e, fs, c).value.1)
    ensures SameAsCanon(e, s)
  {
    var (fs1, c1) := Visit(e.l, fs, c).value;
    var (fs2, c2) := Visit(e.r, fs1, c1).value;
    VisitKeeps(e.r, fs1, c1);
    MergeCovers(fs2, fs1, Eval(e, s).value.st);
    MergedAllWellFormed(fs2, fs1);
  }

  lemma AssignSound(e: Expr, fs: FactVec, c: Context, s: Store)
    requires e.Assign? && WellTyped(e, s.Keys) && OrdersOk(e)
    requires StoreOk(s) && Visit(e, fs, c).Some? && Eval(e.rhs, s).Some?
    requires var (fs1, r) := Visit(e.rhs, fs, c.Param(c.context)).value;
      Good(e.rhs, s, Eval(e.rhs, s).value, fs1, c.Param(c.context), r)
    requires SameAsCanon(e.rhs, s)
    ensures Eval(e, s).Some?
    ensures Good(e, s, Eval(e, s).value, Visit(e, fs, c).value.0, c, Visit(e, fs, c).value.1)
    ensures SameAsCanon(e, s)
  {
    var Assign(v, dst, rhs, _) := e;
    var o := Eval(rhs, s).value;
    var (fs1, r) := Visit(rhs, fs, c.Param(c.context)).value;
    var running := c.context.(writeVars := c.context.writeVars + r.accum.lhsWriteVars);
    var lc := c.Param(running).(stm := r.stm);
    VisitLhsOk(v, dst, fs1, o.st, lc);
    var l := VisitLhs(v, dst, fs1, lc).value;
    var t, path := Chase(o.st, v, dst).value, Path(o.st, v, dst);
    SidesDisjoint(o.fp, path, t, c, r, running, l.accum);
    AssignEval(e, s, o, t, path);
    AssignCovers(e, fs1, o.st, o.fp.val);
    AssignAccounted(o.fp, path, t, c, r, running, l);
  }

  /** The facts after an assignment cover the store after it, and the value can still be recovered. */
  lemma AssignCovers(e: Expr, fs: FactVec, s: Store, x: Value)
    requires e.Assign? && WellTyped(e, s.Keys) && StoreOk(s) && Covers(fs, s) && WellFormed(fs)
    requires Chase(s, e.v, e.dst).Some? && HasType(x, LevelOf(e), s.Keys) && (LevelOf(e) > 0 ==> Recoverable(e.rhs, s, x))
    ensures var s' := s[Chase(s, e.v, e.dst).value := x]; var fs' := AssignedFacts(e.v, e.dst, e.rhs, fs);
      StoreOk(s') && WellFormed(fs') && Covers(fs', s') && (LevelOf(e) > 0 ==> Recoverable(e, s', x))
  {
    ChaseCovered(fs, s, e.v, e.dst, [e.v.Coll()]);
    AssignmentTransferSound(e.v, e.dst, e.rhs, fs, s, x);
    if LevelOf(e) > 0 { RecoverableAfterWrite(e.rhs, s, Chase(s, e.v, e.dst).value, x); }
  }

  /** The left-hand side is checked against the writes of the right-hand side. */
  lemma SidesDisjoint(fp: Footprint, path: set<Variable>, t: Variable, c: Context, r: Context, running: Effect, acc: Effect)
    requires Accounted(fp, c.Param(c.context), r) && r.accum.lhsWriteVars <= running.writeVars
    requires (forall x :: x in path ==> ReadOk(x, running, acc)) && WriteOk(t, running, acc)
    ensures fp.wr !! path && t !in fp.wr
  {
    forall x | x in fp.wr ensures x !in path && x != t {
      assert x in path ==> ReadOk(x, running, acc);
    }
  }

  lemma AssignEval(e: Expr, s: Store, o: Out, t: Variable, path: set<Variable>)
    requires e.Assign? && Eval(e.rhs, s) == Some(o) && SameAsCanon(e.rhs, s) && Framed(s, o)
    requires Chase(o.st, e.v, e.dst) == Some(t) && path == Path(o.st, e.v, e.dst) && t in o.st
    requires o.fp.wr !! path && t !in o.fp.wr
    ensures Eval(e, s) == Some(Out(Footprint(o.fp.val, o.fp.rd + path, o.fp.wr + {t}), o.st[t := o.fp.val]))
    ensures SameAsCanon(e, s)
  {
    ChaseFrame(o.st, s, e.v, e.dst);
  }

  lemma AssignAccounted(fp: Footprint, path: set<Variable>, t: Variable, c: Context, r: Context, running: Effect, l: Context)
    requires Accounted(fp, c.Param(c.context), r)
    requires running.writeVars >= c.context.writeVars && running.readVars == c.context.readVars
    requires forall x :: x in path ==> ReadOk(x, running, l.accum)
    requires WriteOk(t, running, l.accum) && t.Coll() in l.accum.lhsWriteVars
    ensures var d := c.Merge(r.accum, true).Merge(l.accum, true);
      Accounted(Footprint(fp.val, fp.rd + path, fp.wr + {t}), c, d) && Extends(c, d)
  {}

  /** Visiting one more operand keeps the state. */
  lemma ArgsStep(args: seq<Expr>, outs: seq<Out>, fs: FactVec, c: Context, d: Context, running: Effect, s: Store, t: Store,
                 fs1: FactVec, p: Context)
    returns (outs': seq<Out>)
    requires |outs| < |args|
    requires ArgsState(args, outs, fs, c, d, running, s, t)
    requires OrdersOk(args[|outs|]) && WellTyped(args[|outs|], s.Keys)
    requires Eval(args[|outs|], t).Some? && SameAsCanon(args[|outs|], t)
    requires Good(args[|outs|], t, Eval(args[|outs|], t).value, fs1, d.Param(running), p)
    ensures |outs'| == |outs| + 1
    ensures ArgsState(args, outs', fs1, c, d.Merge(p.accum, true), running.Add(p.accum, false), s, Eval(args[|outs|], t).value.st)
  {
    var i := |outs|;
    var e, o := args[i], Eval(args[i], t).value;
    OperandAlone(e, outs, s, t, running, p.accum, c, d);
    var alone := Eval(e, s).value;
    outs' := outs + [alone];
    AloneSnoc(args, outs, alone, s);
    OutsStep(outs, alone, o, fs, c, d, running, s, t, fs1, p);
  }

  lemma OutsStep(outs: seq<Out>, alone: Out, o: Out, fs: FactVec, c: Context, d: Context, running: Effect, s: Store, t: Store,
                                    fs1: FactVec, p: Context)
    requires OutsState(outs, fs, c, d, running, s, t)
    requires Framed(t, o) && Framed(s, alone) && o.fp == alone.fp && alone.st == Patch(s, o.st, o.fp.wr)
    requires StoreOk(o.st) && WellFormed(fs1) && Covers(fs1, o.st) && Accounted(o.fp, d.Param(running), p)
    ensures OutsState(outs + [alone], fs1, c, d.Merge(p.accum, true), running.Add(p.accum, false), s, o.st)
  {
    var outs' := outs + [alone];
    assert NoRaces(outs') by { NoNewRaces(outs, alone, running, c, d, p.accum); }
    assert MergedBy(o.st, s, outs', Upto(|outs'|)) by { StepMerged(outs, alone, o, s, t); }
    StepRecorded(outs, alone, running, c, d, p);
  }

  lemma AloneSnoc(args: seq<Expr>, outs: seq<Out>, o: Out, s: Store)
    requires |outs| < |args| && Alone(args, outs, s) && AloneAt(args[|outs|], o, s)
    ensures Alone(args, outs + [o], s)
  {
    forall j | 0 <= j < |outs| + 1 ensures AloneAt(args[j], (outs + [o])[j], s) {
      assert j < |outs| ==> AloneAt(args[j], outs[j], s);
    }
  }

  lemma NoNewRaces(outs: seq<Out>, o: Out, running: Effect, c: Context, d: Context, acc: Effect)
    requires NoRaces(outs) && forall j :: 0 <= j < |outs| ==> Recorded(outs[j].fp, running, c, d)
    requires forall x :: x in o.fp.rd ==> ReadOk(x, running, acc)
    requires forall x :: x in o.fp.wr ==> WriteOk(x, running, acc)
    ensures NoRaces(outs + [o])
  {
    forall j | 0 <= j < |outs| ensures !Conflict(outs[j].fp, o.fp) && !Conflict(o.fp, outs[j].fp) {
      assert Recorded(outs[j].fp, running, c, d);
      NoConflictWithRecorded(outs[j].fp, o.fp, running, acc);
    }
  }

  /** An operand whose reads miss all earlier writes does the same when evaluated first. */
  lemma OperandAlone(e: Expr, outs: seq<Out>, s: Store, t: Store, running: Effect, acc: Effect, c: Context, d: Context)
    requires OrdersOk(e) && WellTyped(e, s.Keys) && MergedBy(t, s, outs, Upto(|outs|))
    requires forall j :: 0 <= j < |outs| ==> Recorded(outs[j].fp, running, c, d)
    requires Eval(e, t).Some? && SameAsCanon(e, t) && forall x :: x in Eval(e, t).value.fp.rd ==> ReadOk(x, running, acc)
    ensures Eval(e, s).Some? && AloneAt(e, Eval(e, s).value, s)
    ensures Eval(e, s).value.fp == Eval(e, t).value.fp
    ensures Eval(e, t).value.st.Keys == s.Keys
    ensures Eval(e, s).value.st == Patch(s, Eval(e, t).value.st, Eval(e, t).value.fp.wr)
  {
    var o := Eval(e, t).value;
    forall x | x in o.fp.rd && x in t ensures t[x] == s[x] {
      assert MergedAt(t, s, outs, Upto(|outs|), x);
      assert ReadOk(x, running, acc);
      forall j | j in Upto(|outs|) && j < |outs| ensures x !in outs[j].fp.wr {
        assert Recorded(outs[j].fp, running, c, d);
      }
    }
    EvalFrame(e, t, s);
    CanonOk(e, s.Keys);
    EvalFrame(Canon(e), t, s);
    EvalFramed(e, s);
  }

  lemma NoConflictWithRecorded(a: Footprint, b: Footprint, running: Effect, acc: Effect)
    requires forall x :: x in a.rd ==> x.Coll() in running.readVars
    requires forall x :: x in a.wr ==> x.Coll() in running.writeVars
    requires forall x :: x in b.rd ==> ReadOk(x, running, acc)
    requires forall x :: x in b.wr ==> WriteOk(x, running, acc)
    ensures !Conflict(a, b) && !Conflict(b, a)
  {}

  lemma StepMerged(outs: seq<Out>, alone: Out, o: Out, s: Store, t: Store)
    requires MergedBy(t, s, outs, Upto(|outs|)) && NoRaces(outs + [alone])
    requires Framed(t, o) && Framed(s, alone) && o.fp == alone.fp && o.st.Keys == s.Keys
    requires alone.st == Patch(s, o.st, o.fp.wr)
    ensures MergedBy(o.st, s, outs + [alone], Upto(|outs| + 1))
  {
    var i := |outs|;
    var outs' := outs + [alone];
    SamePatch(o, alone, s, t);
    forall x | x in s ensures MergedAt(t, s, outs', Upto(i), x) {
      assert MergedAt(t, s, outs, Upto(i), x);
      assert forall j :: j in Upto(i) ==> outs'[j] == outs[j];
    }
    MergedByStep(t, o.st, s, outs', Upto(i), i);
    assert Upto(i) + {i} == Upto(i + 1);
  }

  lemma SamePatch(o: Out, alone: Out, s: Store, t: Store)
    requires Framed(t, o) && t.Keys == s.Keys && o.st.Keys == s.Keys && o.fp == alone.fp
    requires alone.st == Patch(s, o.st, o.fp.wr)
    ensures o.st == Patch(t, alone.st, alone.fp.wr)
  {}

  lemma StepRecorded(outs: seq<Out>, o: Out, running: Effect, c: Context, d: Context, p: Context)
    requires Extends(c, d) && c.context.readVars <= running.readVars && c.context.writeVars <= running.writeVars
    requires forall j :: 0 <= j < |outs| ==> Recorded(outs[j].fp, running, c, d)
    requires Accounted(o.fp, d.Param(running), p)
    ensures var running' := running.Add(p.accum, false); var d' := d.Merge(p.accum, true);
      && Extends(c, d') && c.context.readVars <= running'.readVars && c.context.writeVars <= running'.writeVars
      && forall j :: 0 <= j < |outs| + 1 ==> Recorded((outs + [o])[j].fp, running', c, d')
  {
    var running', d' := running.Add(p.accum, false), d.Merge(p.accum, true);
    assert Recorded(o.fp, running', c, d');
    forall j | 0 <= j < |outs| ensures Recorded(outs[j].fp, running', c, d') {
      assert Recorded(outs[j].fp, running, c, d);
    }
  }

  lemma {:induction false} ArgsSound(args: seq<Expr>, outs: seq<Out>, fs: FactVec, c: Context, d: Context, running: Effect, s: Store, t: Store,
                                     fs': FactVec, d': Context)
    returns (outs': seq<Out>, running': Effect, u: Store)
    requires |outs| <= |args| && (forall j :: 0 <= j < |args| ==> WellTyped(args[j], s.Keys) && OrdersOk(args[j]))
    requires ArgsState(args, outs, fs, c, d, running, s, t)
    requires VisitArgs(args, |outs|, fs, d, running) == Some((fs', d'))
    ensures |outs'| == |args|
    ensures ArgsState(args, outs', fs', c, d', running', s, u)
    decreases args, |args| - |outs|, 1
  {
    if |outs| == |args| {
      outs', running', u := outs, running, t;
    } else {
      var next, fs1, d1, running1, t1 := ArgsNext(args, outs, fs, c, d, running, s, t);
      outs', running', u := ArgsSound(args, next, fs1, c, d1, running1, s, t1, fs', d');
    }
  }

  lemma {:induction false} ArgsNext(args: seq<Expr>, outs: seq<Out>, fs: FactVec, c: Context, d: Context, running: Effect, s: Store, t: Store)
    returns (next: seq<Out>, fs1: FactVec, d1: Context, running1: Effect, t1: Store)
    requires |outs| < |args| && WellTyped(args[|outs|], s.Keys) && OrdersOk(args[|outs|])
    requires ArgsState(args, outs, fs, c, d, running, s, t)
    requires VisitArgs(args, |outs|, fs, d, running).Some?
    ensures |next| == |outs| + 1 && ArgsState(args, next, fs1, c, d1, running1, s, t1)
    ensures VisitArgs(args, |outs|, fs, d, running) == VisitArgs(args, |next|, fs1, d1, running1)
    decreases args, |args| - |outs|, 0
  {
    var e := args[|outs|];
    VisitSound(e, fs, d.Param(running), t);
    var (gs, p) := Visit(e, fs, d.Param(running)).value;
    next := ArgsStep(args, outs, fs, c, d, running, s, t, gs, p);
    fs1, d1, running1, t1 := gs, d.Merge(p.accum, true), running.Add(p.accum, false), Eval(e, t).value.st;
  }

  /** The value of the operator, in its own order of evaluation and in canonical order. */
  lemma OpEval(fn: seq<Value> -> int, args: seq<Expr>, order: seq<nat>, outs: seq<Out>, s: Store, t: Store)
    returns (m: map<nat, Footprint>)
    requires forall i :: 0 <= i < |args| ==> WellTyped(args[i], s.Keys)
    requires IsOrder(order, |args|) && |outs| == |args|
    requires Alone(args, outs, s) && NoRaces(outs) && MergedBy(t, s, outs, Upto(|outs|))
    ensures Eval(Op(fn, args, order), s)
         == Some(Out(Footprint(Num(fn(Values(m, |args|))), AllReads(m), AllWrites(m)), t))
    ensures SameAsCanon(Op(fn, args, order), s)
    ensures forall i :: i in m ==> i < |outs| && m[i] == outs[i].fp
  {
    OrderCoversAll(order, |args|);
    StartMerged(s, outs);
    var u;
    m, u := AnyOrder(args, outs, order, s, s, {}, Upto(|outs|));
    MergedByUnique(t, u, s, outs, Upto(|outs|));
    NoConflictsFromNoRaces(m, outs);
    CanonOpSame(args, outs, order, s);
    OpUnfold(fn, args, order, s, m, t);
    OpUnfold(fn, CanonArgs(args), Ascending(|args|), s, m, t);
    CanonOfOp(fn, args, order, s);
  }

  lemma CanonOfOp(fn: seq<Value> -> int, args: seq<Expr>, order: seq<nat>, s: Store)
    requires Eval(Op(fn, CanonArgs(args), Ascending(|args|)), s) == Eval(Op(fn, args, order), s)
    ensures SameAsCanon(Op(fn, args, order), s)
  {}

  lemma OpUnfold(fn: seq<Value> -> int, args: seq<Expr>, order: seq<nat>, s: Store, m: map<nat, Footprint>, t: Store)
    requires EvalOrder(args, order, s) == Some((m, t)) && NoConflicts(m)
    ensures Eval(Op(fn, args, order), s)
         == Some(Out(Footprint(Num(fn(Values(m, |args|))), AllReads(m), AllWrites(m)), t))
  {}

  /** From the state after the last operand to the whole operator expression. */
  lemma OpSound(e: Expr, outs: seq<Out>, fs: FactVec, c: Context, d: Context, running: Effect, s: Store, t: Store)
    requires e.Op? && WellTyped(e, s.Keys) && OrdersOk(e) && |outs| == |e.args|
    requires ArgsState(e.args, outs, fs, c, d, running, s, t)
    ensures Eval(e, s).Some? && Good(e, s, Eval(e, s).value, fs, c, d)
    ensures SameAsCanon(e, s)
  {
    var m := OpEval(e.fn, e.args, e.order, outs, s, t);
    EvalFramed(e, s);
    AllRecorded(m, outs, running, c, d);
  }

  lemma NoConflictsFromNoRaces(m: map<nat, Footprint>, outs: seq<Out>)
    requires NoRaces(outs) && forall i :: i in m ==> i < |outs| && m[i] == outs[i].fp
    ensures NoConflicts(m)
  {}

  lemma SameEntries(m: map<nat, Footprint>, m': map<nat, Footprint>, outs: seq<Out>)
    requires m.Keys == m'.Keys
    requires forall i :: i in m ==> i < |outs| && m[i] == outs[i].fp
    requires forall i :: i in m' ==> i < |outs| && m'[i] == outs[i].fp
    ensures m == m'
  {}

  lemma AllRecorded(m: map<nat, Footprint>, outs: seq<Out>, running: Effect, c: Context, d: Context)
    requires forall i :: i in m ==> i < |outs| && m[i] == outs[i].fp
    requires forall j :: 0 <= j < |outs| ==> Recorded(outs[j].fp, running, c, d)
    ensures forall x :: x in AllReads(m) ==> ReadOk(x, c.context, d.accum)
    ensures forall x :: x in AllWrites(m) ==> WriteOk(x, c.context, d.accum) && x.Coll() in d.accum.lhsWriteVars
  {
    forall x | x in AllReads(m) ensures ReadOk(x, c.context, d.accum) {
      var i :| i in m && x in m[i].rd;
      assert Recorded(outs[i].fp, running, c, d);
    }
    forall x | x in AllWrites(m) ensures WriteOk(x, c.context, d.accum) && x.Coll() in d.accum.lhsWriteVars {
      var i :| i in m && x in m[i].wr;
      assert Recorded(outs[i].fp, running, c, d);
    }
  }

  lemma StartMerged(s: Store, outs: seq<Out>)
    ensures MergedBy(s, s, outs, {})
  {}

  lemma CanonArgsAlone(args: seq<Expr>, outs: seq<Out>, s: Store)
    requires forall i :: 0 <= i < |args| ==> WellTyped(args[i], s.Keys)
    requires |outs| == |args| && Alone(args, outs, s)
    ensures Alone(CanonArgs(args), outs, s)
  {
    forall i | 0 <= i < |args| ensures AloneAt(CanonArgs(args)[i], outs[i], s) {
      CanonOk(args[i], s.Keys);
      assert AloneAt(args[i], outs[i], s);
      CanonTwice(args[i]);
    }
  }

  lemma CanonOpSame(args: seq<Expr>, outs: seq<Out>, order: seq<nat>, s: Store)
    requires IsOrder(order, |args|)
    requires forall i :: 0 <= i < |args| ==> WellTyped(args[i], s.Keys)
    requires |outs| == |args| && Alone(args, outs, s) && NoRaces(outs)
    ensures EvalOrder(CanonArgs(args), Ascending(|args|), s) == EvalOrder(args, order, s)
  {
    var corder := Ascending(|args|);
    CanonArgsAlone(args, outs, s);
    OrderCoversAll(order, |args|);
    OrderCoversAll(corder, |args|);
    StartMerged(s, outs);
    var m, u := AnyOrder(args, outs, order, s, s, {}, Upto(|args|));
    var m', u' := AnyOrder(CanonArgs(args), outs, corder, s, s, {}, Upto(|args|));
    SameEntries(m, m', outs);
    MergedByUnique(u, u', s, outs, Upto(|args|));
  }

  lemma {:induction false} CanonTwice(e: Expr)
    ensures Canon(Canon(e)) == Canon(e)
    decreases e
  {
    match e
    case Const(_, _) =>
    case Read(_, _) =>
    case Assign(_, _, rhs, _) => CanonTwice(rhs);
    case Comma(l, r) =>
      CanonTwice(l);
      CanonTwice(r);
    case Logical(_, l, r) =>
      CanonTwice(l);
      CanonTwice(r);
    case Op(_, args, _) =>
      forall i | 0 <= i < |args| ensures Canon(Canon(args[i])) == Canon(args[i]) { CanonTwice(args[i]); }
  }

  /** Evaluation-order independence: two translations of an accepted expression that differ only in
      the order of unsequenced evaluations are both defined, with equal outcomes. */
  lemma EvaluationOrderIndependence(e: Expr, e': Expr, fs: FactVec, c: Context, s: Store)
    requires WellTyped(e, s.Keys) && OrdersOk(e) && WellTyped(e', s.Keys) && OrdersOk(e')
    requires Canon(e) == Canon(e')
    requires StoreOk(s) && WellFormed(fs) && Covers(fs, s)
    requires Visit(e, fs, c).Some?
    ensures Eval(e, s).Some? && Eval(e', s) == Eval(e, s)
  {
    VisitSound(e, fs, c, s);
    VisitIgnoresOrder(e, fs, c);
    VisitIgnoresOrder(e', fs, c);
    VisitSound(e', fs, c, s);
  }

  lemma {:induction false} VisitIgnoresOrder(e: Expr, fs: FactVec, c: Context)
    ensures Visit(Canon(e), fs, c) == Visit(e, fs, c)
    decreases e, 0
  {
    match e
    case Const(_, _) =>
    case Read(_, _) =>
    case Assign(v, dst, rhs, _) =>
      VisitIgnoresOrder(rhs, fs, c.Param(c.context));
      if Visit(rhs, fs, c.Param(c.context)).Some? {
        var fs1 := Visit(rhs, fs, c.Param(c.context)).value.0;
        RhsIgnoresOrder(rhs, fs1);
      }
    case Comma(l, r) =>
      VisitIgnoresOrder(l, fs, c);
      if Visit(l, fs, c).Some? {
        var (fs1, c1) := Visit(l, fs, c).value;
        VisitIgnoresOrder(r, fs1, c1);
      }
    case Logical(_, l, r) =>
      VisitIgnoresOrder(l, fs, c);
      if Visit(l, fs, c).Some? {
        var (fs1, c1) := Visit(l, fs, c).value;
        VisitIgnoresOrder(r, fs1, c1);
      }
    case Op(_, args, _) =>
      ArgsIgnoreOrder(args, 0, fs, c, c.context);
  }

  lemma {:induction false} ArgsIgnoreOrder(args: seq<Expr>, i: nat, fs: FactVec, c: Context, running: Effect)
    requires i <= |args|
    ensures VisitArgs(CanonArgs(args), i, fs, c, running)
         == VisitArgs(args, i, fs, c, running)
    decreases args, |args| - i
  {
    if i < |args| {
      VisitIgnoresOrder(args[i], fs, c.Param(running));
      if Visit(args[i], fs, c.Param(running)).Some? {
        var (fs1, p) := Visit(args[i], fs, c.Param(running)).value;
        ArgsIgnoreOrder(args, i + 1, fs1, c.Merge(p.accum, true), running.Add(p.accum, false));
      }
    }
  }

  lemma {:induction false} RhsIgnoresOrder(e: Expr, fs: FactVec)
    ensures RhsPointees(Canon(e), fs) == RhsPointees(e, fs)
    decreases e
  {
    match e
    case Assign(_, _, rhs, _) => RhsIgnoresOrder(rhs, fs);
    case Comma(_, r) => RhsIgnoresOrder(r, fs);
    case _ =>
  }

  // ---------- what a visit keeps, whatever the store ----------

  lemma AssignedWellFormed(v: Variable, k: nat, rhs: Expr, fs: FactVec)
    requires WellFormed(fs)
    ensures WellFormed(AssignedFacts(v, k, rhs, fs))
  {
    if k < v.Level() && RhsPointees(rhs, fs).Some? {
      RhsNoDup(rhs, fs);
      var pts := RhsPointees(rhs, fs).value;
      var targets := Deref([v.Coll()], k, fs);
      var facts := MakeFacts(targets, pts);
      forall f | f in facts ensures FactNoDup(f) { MakeFactsElements(targets, pts, f); }
      FactsKeptWellFormed(fs, facts);
    }
  }

  lemma FactsKeptWellFormed(fs: FactVec, facts: FactVec)
    requires WellFormed(fs) && forall f :: f in facts ==> FactNoDup(f)
    ensures WellFormed(MergedAll(fs, facts)) && (facts != [] ==> WellFormed(Renewed(fs, facts[0])))
  {
    MergedAllWellFormed(fs, facts);
    if facts != [] { MergedWellFormed(fs, facts[0]); }
  }

  lemma {:induction false} CheckEachExtends(vs: seq<Variable>, write: bool, fs: FactVec, c: Context, d: Context)
    requires CheckEach(vs, write, fs, c) == Some(d)
    ensures Extends(c, d)
    decreases |vs|
  {
    if vs != [] {
      var r := if vs[0].IsSpecial() then Some(c)
               else if write then CheckWrite(vs[0], fs, c) else CheckRead(vs[0], fs, c);
      CheckEachExtends(vs[1..], write, fs, r.value, d);
    }
  }

  lemma {:induction false} FollowExtends(ptrs: seq<Variable>, k: nat, write: bool, fs: FactVec, c: Context, d: Context)
    requires Follow(ptrs, k, write, fs, c) == Some(d)
    ensures Extends(c, d)
    decreases k
  {
    if k > 0 {
      var next := PointeesOfAll(ptrs, fs);
      var c' := CheckEach(next, write && k == 1, fs, c).value;
      CheckEachExtends(next, write && k == 1, fs, c, c');
      FollowExtends(next, k - 1, write, fs, c', d);
      ExtendsTransitive(c, c', d);
    }
  }

  lemma ExtendsTransitive(c: Context, d: Context, e: Context)
    requires Extends(c, d) && Extends(d, e)
    ensures Extends(c, e)
  {}

  /** A visit keeps the fact vector well-formed and only adds effects. */
  lemma {:induction false} VisitKeeps(e: Expr, fs: FactVec, c: Context)
    requires WellFormed(fs) && Visit(e, fs, c).Some?
    ensures WellFormed(Visit(e, fs, c).value.0)
    ensures Extends(c, Visit(e, fs, c).value.1)
    decreases e, 0
  {
    match e
    case Const(_, _) =>
    case Read(v, k) =>
      if k > 0 { FollowExtends([v.Coll()], k, false, fs, CheckRead(v, fs, c).value, Visit(e, fs, c).value.1); }
    case Assign(v, dst, rhs, _) =>
      VisitKeeps(rhs, fs, c.Param(c.context));
      AssignedWellFormed(v, dst, rhs, Visit(rhs, fs, c.Param(c.context)).value.0);
    case Comma(l, r) =>
      VisitKeeps(l, fs, c);
      VisitKeeps(r, Visit(l, fs, c).value.0, Visit(l, fs, c).value.1);
    case Logical(_, l, r) =>
      VisitKeeps(l, fs, c);
      var (fs1, c1) := Visit(l, fs, c).value;
      VisitKeeps(r, fs1, c1);
      MergedAllWellFormed(Visit(r, fs1, c1).value.0, fs1);
    case Op(_, args, _) =>
      VisitArgsKeep(args, 0, fs, c, c.context);
  }

  lemma {:induction false} VisitArgsKeep(args: seq<Expr>, i: nat, fs: FactVec, c: Context, running: Effect)
    requires i <= |args| && WellFormed(fs) && VisitArgs(args, i, fs, c, running).Some?
    ensures WellFormed(VisitArgs(args, i, fs, c, running).value.0)
    ensures Extends(c, VisitArgs(args, i, fs, c, running).value.1)
    decreases args, |args| - i
  {
    if i < |args| {
      VisitKeeps(args[i], fs, c.Param(running));
      var (fs1, p) := Visit(args[i], fs, c.Param(running)).value;
      VisitArgsKeep(args, i + 1, fs1, c.Merge(p.accum, true), running.Add(p.accum, false));
    }
  }
}
