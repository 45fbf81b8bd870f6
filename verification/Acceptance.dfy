/** Exactly when an expression is accepted, and what it records. */
module Acceptance {
  // Visiting an expression in any surroundings is visiting it alone and one test for clashes. So
  // unsequenced operands are accepted exactly if each is alone and no two of them clash. What a
  // read and a target record are the variables on their chains of dereferences.

  import opened Collections
  import opened Variables
  import opened Facts
  import opened PointsTo
  import opened Expressions
  import opened CGContexts

  /** No surroundings, and nothing accumulated. */
  const ALONE: Context := Context(NO_EFFECT, NO_EFFECT, NO_EFFECT, {})

  lemma MergeTwice(c: Context, a: Effect, b: Effect)
    ensures c.Merge(a, true).Merge(b, true) == c.Merge(a.Add(b, true), true)
  {}

  lemma MergeNothing(c: Context)
    ensures c.Merge(NO_EFFECT, true) == c
  {}

  lemma FitsBoth(a: Effect, b: Effect, around: Effect, noWrite: set<Variable>)
    ensures Fits(a.Add(b, true), around, noWrite) <==> Fits(a, around, noWrite) && Fits(b, around, noWrite)
  {}

  /** What is accepted in `c` is what is accepted alone and fits, and adds what it adds alone. */
  ghost predicate Factors(full: Option<Context>, own: Option<Context>, c: Context) {
    && (full.Some? <==> own.Some? && Fits(own.value.accum, c.context, c.noWrite))
    && (full.Some? ==> full.value == c.Merge(own.value.accum, true))
  }

  lemma FactorsTwice(own1: Context, own2: Option<Context>, own: Option<Context>, c: Context, c1: Context, full: Option<Context>)
    requires c1 == c.Merge(own1.accum, true) && Fits(own1.accum, c.context, c.noWrite)
    requires Factors(full, own2, c1) && Factors(own, own2, ALONE.Merge(own1.accum, true))
    ensures Factors(full, own, c)
  {
    if own2.Some? {
      FitsBoth(own1.accum, own2.value.accum, c.context, c.noWrite);
      MergeTwice(c, own1.accum, own2.value.accum);
      MergeTwice(ALONE, own1.accum, own2.value.accum);
    }
  }

  lemma {:induction false} CheckEachFactors(vs: seq<Variable>, write: bool, fs: FactVec, c: Context)
    ensures Factors(CheckEach(vs, write, fs, c), CheckEach(vs, write, fs, ALONE), c)
    decreases |vs|
  {
    if vs == [] {
      MergeNothing(c);
    } else {
      var step := CheckOne(vs[0], write, fs, c);
      var own := CheckOne(vs[0], write, fs, ALONE);
      CheckOneFactors(vs[0], write, fs, c);
      CheckOneFactors(vs[0], write, fs, ALONE);
      if own.Some? {
        CheckEachFactors(vs[1..], write, fs, own.value);
        if step.Some? {
          CheckEachFactors(vs[1..], write, fs, step.value);
          FactorsTwice(own.value, CheckEach(vs[1..], write, fs, ALONE), CheckEach(vs, write, fs, ALONE), c, step.value, CheckEach(vs, write, fs, c));
        } else {
          NotOneNotAll(own.value, CheckEach(vs[1..], write, fs, ALONE), CheckEach(vs, write, fs, ALONE), c);
        }
      }
    }
  }

  function CheckOne(v: Variable, write: bool, fs: FactVec, c: Context): Option<Context> {
    if v.IsSpecial() then Some(c) else if write then CheckWrite(v, fs, c) else CheckRead(v, fs, c)
  }

  lemma CheckReadFactors(v: Variable, fs: FactVec, c: Context)
    ensures Factors(CheckRead(v, fs, c), CheckRead(v, fs, ALONE), c)
  {
    var w := v.Coll();
    assert c.Merge(Effect({w}, {}, {}), true) == c.(accum := c.accum.Read(w), stm := c.stm.Read(w));
  }

  lemma CheckWriteFactors(v: Variable, fs: FactVec, c: Context)
    ensures Factors(CheckWrite(v, fs, c), CheckWrite(v, fs, ALONE), c)
  {
    var w := v.Coll();
    assert c.Merge(Effect({}, {w}, {}), true) == c.(accum := c.accum.Write(w), stm := c.stm.Write(w));
  }

  lemma CheckOneFactors(v: Variable, write: bool, fs: FactVec, c: Context)
    ensures Factors(CheckOne(v, write, fs, c), CheckOne(v, write, fs, ALONE), c)
  {
    MergeNothing(c);
    CheckReadFactors(v, fs, c);
    CheckWriteFactors(v, fs, c);
  }

  /** If the first part does not fit, neither does the whole. */
  lemma NotOneNotAll(own1: Context, own2: Option<Context>, own: Option<Context>, c: Context)
    requires !Fits(own1.accum, c.context, c.noWrite) && own1 == ALONE.Merge(own1.accum, true)
    requires Factors(own, own2, own1)
    ensures own.Some? ==> !Fits(own.value.accum, c.context, c.noWrite)
  {
    if own2.Some? {
      FitsBoth(own1.accum, own2.value.accum, c.context, c.noWrite);
      MergeTwice(ALONE, own1.accum, own2.value.accum);
    }
  }

  lemma {:induction false} FollowFactors(ptrs: seq<Variable>, k: nat, write: bool, fs: FactVec, c: Context)
    ensures Factors(Follow(ptrs, k, write, fs, c), Follow(ptrs, k, write, fs, ALONE), c)
    decreases k
  {
    if k == 0 {
      MergeNothing(c);
    } else {
      var next := PointeesOfAll(ptrs, fs);
      var step, own := CheckEach(next, write && k == 1, fs, c), CheckEach(next, write && k == 1, fs, ALONE);
      CheckEachFactors(next, write && k == 1, fs, c);
      CheckEachFactors(next, write && k == 1, fs, ALONE);
      if !BadPointees(next) && own.Some? {
        FollowFactors(next, k - 1, write, fs, own.value);
        if step.Some? {
          FollowFactors(next, k - 1, write, fs, step.value);
          FactorsTwice(own.value, Follow(next, k - 1, write, fs, ALONE), Follow(ptrs, k, write, fs, ALONE), c, step.value, Follow(ptrs, k, write, fs, c));
        } else {
          NotOneNotAll(own.value, Follow(next, k - 1, write, fs, ALONE), Follow(ptrs, k, write, fs, ALONE), c);
        }
      }
    }
  }

  lemma ReadFactors(v: Variable, k: int, fs: FactVec, c: Context)
    ensures Factors(VisitRead(v, k, fs, c), VisitRead(v, k, fs, ALONE), c)
  {
    MergeNothing(c);
    var step, own := CheckRead(v, fs, c), CheckRead(v, fs, ALONE);
    CheckReadFactors(v, fs, c);
    CheckReadFactors(v, fs, ALONE);
    if k > 0 && IsValidPtr(fs, v) && own.Some? {
      FollowFactors([v.Coll()], k, false, fs, own.value);
      if step.Some? {
        FollowFactors([v.Coll()], k, false, fs, step.value);
        FactorsTwice(own.value, Follow([v.Coll()], k, false, fs, ALONE), VisitRead(v, k, fs, ALONE), c, step.value, VisitRead(v, k, fs, c));
      } else {
        NotOneNotAll(own.value, Follow([v.Coll()], k, false, fs, ALONE), VisitRead(v, k, fs, ALONE), c);
      }
    }
  }

  /** The target of an assignment, whose right-hand side is known by its effect `c.stm`. */
  lemma LhsFactors(v: Variable, k: nat, fs: FactVec, c: Context)
    requires c.accum == NO_EFFECT
    ensures var full, own := VisitLhs(v, k, fs, c), VisitLhs(v, k, fs, ALONE.(stm := c.stm));
      && (full.Some? <==> own.Some? && Fits(own.value.accum, c.context, c.noWrite))
      && (full.Some? ==> full.value.accum == own.value.accum)
  {
    var d := ALONE.(stm := c.stm);
    CheckWriteFactors(v, fs, c);
    CheckWriteFactors(v, fs, d);
    CheckReadFactors(v, fs, c);
    CheckReadFactors(v, fs, d);
    var step, own := CheckRead(v, fs, c), CheckRead(v, fs, ALONE);
    if k > 0 && own.Some? {
      var rest := Follow([v.Coll()], k, true, fs, ALONE);
      FollowFactors([v.Coll()], k, true, fs, own.value);
      FollowFactors([v.Coll()], k, true, fs, CheckRead(v, fs, d).value);
      if step.Some? {
        FollowFactors([v.Coll()], k, true, fs, step.value);
        if rest.Some? { FitsBoth(own.value.accum, rest.value.accum, c.context, c.noWrite); }
      } else if rest.Some? {
        FitsBoth(own.value.accum, rest.value.accum, c.context, c.noWrite);
      }
    }
  }

  /** The facts after `e` and what it accumulates, visited alone. */
  function Own(e: Expr, fs: FactVec): Option<(FactVec, Context)> { Visit(e, fs, ALONE) }

  /** `e` is accepted in some surroundings if and only if it is accepted alone and what it accumulates
      then does not clash with them; the facts are the same and the same effect is added. */
  lemma {:induction false} VisitFactors(e: Expr, fs: FactVec, c: Context)
    ensures Visit(e, fs, c).Some? <==> Own(e, fs).Some? && Fits(Own(e, fs).value.1.accum, c.context, c.noWrite)
    ensures Visit(e, fs, c).Some? ==> Visit(e, fs, c).value == (Own(e, fs).value.0, c.Merge(Own(e, fs).value.1.accum, true))
    decreases e, 0
  {
    match e
    case Const(_, _) => MergeNothing(c);
    case Read(v, k) => ReadFactors(v, k, fs, c);
    case Assign(_, _, rhs, _) =>
      VisitFactors(rhs, fs, c.Param(c.context));
      VisitFactors(rhs, fs, ALONE);
      AssignFactors(e, fs, c);
    case Comma(l, r) =>
      VisitFactors(l, fs, c);
      VisitFactors(l, fs, ALONE);
      if Own(l, fs).Some? {
        var (fs1, own1) := Own(l, fs).value;
        VisitFactors(r, fs1, own1);
        VisitFactors(r, fs1, c.Merge(own1.accum, true));
        InSequence(own1, Map1(Own(r, fs1)), Map1(Own(e, fs)), c, Map1(Visit(e, fs, c)));
      }
    case Logical(_, l, r) =>
      VisitFactors(l, fs, c);
      VisitFactors(l, fs, ALONE);
      if Own(l, fs).Some? {
        var (fs1, own1) := Own(l, fs).value;
        VisitFactors(r, fs1, own1);
        VisitFactors(r, fs1, c.Merge(own1.accum, true));
        InSequence(own1, Map1(Own(r, fs1)), Map1(Own(e, fs)), c, Map1(Visit(e, fs, c)));
      }
    case Op(_, args, _) =>
      ArgsFactor(args, 0, fs, c, NO_EFFECT, c.context);
  }

  function Map1(o: Option<(FactVec, Context)>): Option<Context> {
    match o case None => None case Some((_, c)) => Some(c)
  }

  lemma InSequence(own1: Context, own2: Option<Context>, own: Option<Context>, c: Context, full: Option<Context>)
    requires own1 == ALONE.Merge(own1.accum, true) && Factors(own, own2, own1)
    requires if Fits(own1.accum, c.context, c.noWrite) then Factors(full, own2, c.Merge(own1.accum, true)) else full.None?
    ensures Factors(full, own, c)
  {
    if Fits(own1.accum, c.context, c.noWrite) {
      FactorsTwice(own1, own2, own, c, c.Merge(own1.accum, true), full);
    } else {
      NotOneNotAll(own1, own2, own, c);
    }
  }

  lemma AssignFactors(e: Expr, fs: FactVec, c: Context)
    requires e.Assign?
    requires Factors(Map1(Visit(e.rhs, fs, c.Param(c.context))), Map1(Own(e.rhs, fs)), c.Param(c.context))
    requires Visit(e.rhs, fs, c.Param(c.context)).Some? ==> Visit(e.rhs, fs, c.Param(c.context)).value.0 == Own(e.rhs, fs).value.0
    requires Own(e.rhs, fs).Some? ==> Own(e.rhs, fs).value.1 == ALONE.Merge(Own(e.rhs, fs).value.1.accum, true)
    ensures Factors(Map1(Visit(e, fs, c)), Map1(Own(e, fs)), c)
    ensures Visit(e, fs, c).Some? ==> Visit(e, fs, c).value.0 == Own(e, fs).value.0
  {
    if Own(e.rhs, fs).Some? {
      var (fs1, own) := Own(e.rhs, fs).value;
      var w := own.accum.lhsWriteVars;
      var lc := c.Param(c.context.(writeVars := c.context.writeVars + w)).(stm := own.stm);
      var l0 := ALONE.Param(NO_EFFECT.(writeVars := {} + w)).(stm := own.stm);
      LhsFactors(e.v, e.dst, fs1, lc);
      LhsFactors(e.v, e.dst, fs1, l0);
      var l := VisitLhs(e.v, e.dst, fs1, ALONE.(stm := own.stm));
      if l.Some? {
        FitsBoth(own.accum, l.value.accum, c.context, c.noWrite);
        MergeTwice(c, own.accum, l.value.accum);
        MergeTwice(ALONE, own.accum, l.value.accum);
      }
    }
  }

  /** Operands, where `own` has been accumulated by those before. */
  lemma {:induction false} ArgsFactor(args: seq<Expr>, i: nat, fs: FactVec, c: Context, before: Effect, running: Effect)
    requires i <= |args| && running.readVars == c.context.readVars + before.readVars && running.writeVars == c.context.writeVars + before.writeVars
    ensures var own := VisitArgs(args, i, fs, ALONE, before);
      && Factors(Map1(VisitArgs(args, i, fs, c, running)), Map1(own), c)
      && (VisitArgs(args, i, fs, c, running).Some? ==> VisitArgs(args, i, fs, c, running).value.0 == own.value.0)
    decreases args, |args| - i
  {
    if i == |args| {
      MergeNothing(c);
    } else {
      VisitFactors(args[i], fs, c.Param(running));
      VisitFactors(args[i], fs, ALONE.Param(before));
      if Own(args[i], fs).Some? {
        var (fs1, own1) := Own(args[i], fs).value;
        var a := own1.accum;
        VisitFactors(args[i], fs, ALONE);
        assert Fits(a, running, c.noWrite) <==> Fits(a, c.context, c.noWrite) && Fits(a, before, {});
        if Fits(a, before, {}) {
          ArgsFactor(args, i + 1, fs1, ALONE.Merge(a, true), before.Add(a, false), before.Add(a, false));
          ArgsFactor(args, i + 1, fs1, c.Merge(a, true), before.Add(a, false), running.Add(a, false));
          InSequence(own1, Map1(VisitArgs(args, i + 1, fs1, ALONE, before.Add(a, false))), Map1(VisitArgs(args, i, fs, ALONE, before)), c,
                     Map1(VisitArgs(args, i, fs, c, running)));
        }
      }
    }
  }

  // ---------- unsequenced operands ----------

  /** `f` reads nothing that `e` writes, and writes nothing that `e` accesses. */
  ghost predicate NoClash(e: Effect, f: Effect) {
    && (forall v :: v in f.readVars ==> v !in e.writeVars)
    && forall v :: v in f.writeVars ==> v !in e.writeVars && v !in e.readVars
  }

  /** Visited in the surroundings of `c`, with nothing of its neighbours, `e` leads from `fs` to `gs` and
      has the effect `eff`. */
  ghost predicate Leads(e: Expr, fs: FactVec, gs: FactVec, eff: Effect, c: Context) {
    var r := Visit(e, fs, c.Param(c.context)); r.Some? && r.value.0 == gs && r.value.1.accum == eff
  }

  /** Each operand from number `i` on is accepted by itself, from the facts its predecessors leave. */
  ghost predicate EachAlone(args: seq<Expr>, i: nat, facts: seq<FactVec>, effs: seq<Effect>, c: Context) {
    && |facts| == |args| + 1 && |effs| == |args|
    && forall j :: i <= j < |args| ==> Leads(args[j], facts[j], facts[j + 1], effs[j], c)
  }

  ghost predicate NoneClash(effs: seq<Effect>, i: nat) {
    forall j, k :: 0 <= j < k < |effs| && i <= k ==> NoClash(effs[j], effs[k])
  }

  /** `r` holds what `e` does and what the first of `effs` do. */
  ghost predicate Gathers(r: Effect, e: Effect, effs: seq<Effect>) {
    && (forall v :: v in r.readVars <==> v in e.readVars || exists j :: 0 <= j < |effs| && v in effs[j].readVars)
    && forall v :: v in r.writeVars <==> v in e.writeVars || exists j :: 0 <= j < |effs| && v in effs[j].writeVars
  }

  /** The same for the targets of assignments. */
  ghost predicate GathersTargets(r: Effect, e: Effect, effs: seq<Effect>) {
    forall v :: v in r.lhsWriteVars <==> v in e.lhsWriteVars || exists j :: 0 <= j < |effs| && v in effs[j].lhsWriteVars
  }

  lemma TargetsNext(r: Effect, e: Effect, effs: seq<Effect>, f: Effect)
    requires GathersTargets(r, e, effs)
    ensures GathersTargets(r.Add(f, true), e, effs + [f])
  {
    var q, more := r.Add(f, true), effs + [f];
    assert more[|effs|] == f && forall j :: 0 <= j < |effs| ==> more[j] == effs[j];
    forall v | v in q.lhsWriteVars ensures v in e.lhsWriteVars || exists j :: 0 <= j < |more| && v in more[j].lhsWriteVars {
      if v in f.lhsWriteVars { assert v in more[|effs|].lhsWriteVars; }
      if j :| 0 <= j < |effs| && v in effs[j].lhsWriteVars { assert v in more[j].lhsWriteVars; }
    }
  }

  lemma GathersNext(r: Effect, e: Effect, effs: seq<Effect>, f: Effect, lhs: bool)
    requires Gathers(r, e, effs)
    ensures Gathers(r.Add(f, lhs), e, effs + [f])
  {
    var q, more := r.Add(f, lhs), effs + [f];
    assert more[|effs|] == f && forall j :: 0 <= j < |effs| ==> more[j] == effs[j];
    forall v | v in q.readVars ensures v in e.readVars || exists j :: 0 <= j < |more| && v in more[j].readVars {
      if v in f.readVars { assert v in more[|effs|].readVars; }
      if j :| 0 <= j < |effs| && v in effs[j].readVars { assert v in more[j].readVars; }
    }
    forall v | v in q.writeVars ensures v in e.writeVars || exists j :: 0 <= j < |more| && v in more[j].writeVars {
      if v in f.writeVars { assert v in more[|effs|].writeVars; }
      if j :| 0 <= j < |effs| && v in effs[j].writeVars { assert v in more[j].writeVars; }
    }
  }

  lemma FitsGathered(f: Effect, r: Effect, e: Effect, effs: seq<Effect>, noWrite: set<Variable>)
    requires Gathers(r, e, effs)
    ensures Fits(f, r, noWrite) <==> Fits(f, e, noWrite) && forall j :: 0 <= j < |effs| ==> NoClash(effs[j], f)
  {
    if Fits(f, r, noWrite) {
      forall v | v in f.readVars ensures v !in r.writeVars {}
      forall v | v in f.writeVars ensures v !in r.writeVars && v !in r.readVars {}
    }
  }

  /** One operand next to the effects of those before. */
  lemma OperandAccepted(e: Expr, fs: FactVec, c: Context, d: Context, running: Effect, effs: seq<Effect>)
    requires d.context == c.context && d.noWrite == c.noWrite && Gathers(running, c.context, effs)
    ensures Visit(e, fs, d.Param(running)).Some? <==>
      Visit(e, fs, c.Param(c.context)).Some? && forall j :: 0 <= j < |effs| ==> NoClash(effs[j], Visit(e, fs, c.Param(c.context)).value.1.accum)
    ensures Visit(e, fs, d.Param(running)).Some? ==>
      && Visit(e, fs, d.Param(running)).value.0 == Visit(e, fs, c.Param(c.context)).value.0
      && Visit(e, fs, d.Param(running)).value.1.accum == Visit(e, fs, c.Param(c.context)).value.1.accum
  {
    VisitFactors(e, fs, d.Param(running));
    VisitFactors(e, fs, c.Param(c.context));
    if Own(e, fs).Some? { FitsGathered(Own(e, fs).value.1.accum, running, c.context, effs, c.noWrite); }
  }

  /** An expression is accepted where an effect `f` is added to the surroundings if and only if it is
      accepted without, and clashes with nothing in `f`; facts and accesses are the same. */
  lemma EnlargedSurroundings(e: Expr, fs: FactVec, c: Context, f: Effect)
    ensures Visit(e, fs, c.Param(c.context.Add(f, false))).Some? <==>
      Visit(e, fs, c.Param(c.context)).Some? && NoClash(f, Visit(e, fs, c.Param(c.context)).value.1.accum)
    ensures Visit(e, fs, c.Param(c.context.Add(f, false))).Some? ==>
      && Visit(e, fs, c.Param(c.context.Add(f, false))).value.0 == Visit(e, fs, c.Param(c.context)).value.0
      && Visit(e, fs, c.Param(c.context.Add(f, false))).value.1.accum == Visit(e, fs, c.Param(c.context)).value.1.accum
  {
    GathersNext(c.context, c.context, [], f, false);
    assert [] + [f] == [f] && [f][0] == f;
    OperandAccepted(e, fs, c, c, c.context.Add(f, false), [f]);
  }

  /** Operands that are accepted by themselves and do not clash are accepted together. */
  lemma {:induction false} ArgsAccepted(args: seq<Expr>, i: nat, facts: seq<FactVec>, effs: seq<Effect>, c: Context, d: Context, running: Effect)
    requires i <= |args| && EachAlone(args, i, facts, effs, c) && NoneClash(effs, i)
    requires d.context == c.context && d.noWrite == c.noWrite
    requires Gathers(running, c.context, effs[..i]) && Gathers(d.accum, c.accum, effs[..i]) && GathersTargets(d.accum, c.accum, effs[..i])
    ensures VisitArgs(args, i, facts[i], d, running).Some?
    ensures VisitArgs(args, i, facts[i], d, running).value.0 == facts[|args|]
    ensures Gathers(VisitArgs(args, i, facts[i], d, running).value.1.accum, c.accum, effs)
    ensures GathersTargets(VisitArgs(args, i, facts[i], d, running).value.1.accum, c.accum, effs)
    decreases |args| - i
  {
    if i == |args| {
      assert effs[..i] == effs;
    } else {
      assert Leads(args[i], facts[i], facts[i + 1], effs[i], c);
      forall j | 0 <= j < i ensures NoClash(effs[..i][j], effs[i]) { assert effs[..i][j] == effs[j]; }
      OperandAccepted(args[i], facts[i], c, d, running, effs[..i]);
      GathersNext(running, c.context, effs[..i], effs[i], false);
      GathersNext(d.accum, c.accum, effs[..i], effs[i], true);
      TargetsNext(d.accum, c.accum, effs[..i], effs[i]);
      assert effs[..i + 1] == effs[..i] + [effs[i]];
      ArgsAccepted(args, i + 1, facts, effs, c, d.Merge(effs[i], true), running.Add(effs[i], false));
    }
  }

  /** Operands that are accepted together are accepted by themselves and do not clash. */
  lemma {:induction false} ArgsAlone(args: seq<Expr>, facts: seq<FactVec>, effs: seq<Effect>, c: Context, d: Context, running: Effect)
    returns (facts': seq<FactVec>, effs': seq<Effect>)
    requires |facts| == |effs| + 1 && |effs| <= |args|
    requires d.context == c.context && d.noWrite == c.noWrite && Gathers(running, c.context, effs)
    requires VisitArgs(args, |effs|, facts[|effs|], d, running).Some?
    ensures EachAlone(args, |effs|, facts', effs', c) && NoneClash(effs', |effs|) && facts <= facts' && effs <= effs'
    decreases |args| - |effs|
  {
    var i := |effs|;
    if i == |args| {
      facts', effs' := facts, effs;
    } else {
      OperandAccepted(args[i], facts[i], c, d, running, effs);
      var (gs, p) := Visit(args[i], facts[i], d.Param(running)).value;
      GathersNext(running, c.context, effs, p.accum, false);
      facts', effs' := ArgsAlone(args, facts + [gs], effs + [p.accum], c, d.Merge(p.accum, true), running.Add(p.accum, false));
      assert facts'[i] == facts[i] && facts'[i + 1] == gs && effs'[i] == p.accum;
      assert Leads(args[i], facts'[i], facts'[i + 1], effs'[i], c);
      forall j | 0 <= j < i ensures NoClash(effs'[j], effs'[i]) { assert effs'[j] == effs[j]; }
    }
  }

  /** A list of unsequenced operands is accepted if and only if each operand, from the facts that its
      predecessors leave, is accepted in the surroundings alone and clashes with none before it. The
      result is the facts after the last operand, with the accesses of all operands added. */
  lemma OperandsAccepted(e: Expr, fs: FactVec, c: Context)
    requires e.Op?
    ensures Visit(e, fs, c).Some? <==>
      exists facts, effs :: EachAlone(e.args, 0, facts, effs, c) && facts[0] == fs && NoneClash(effs, 0)
    ensures forall facts, effs :: EachAlone(e.args, 0, facts, effs, c) && facts[0] == fs && NoneClash(effs, 0) ==>
      && Visit(e, fs, c).Some? && Visit(e, fs, c).value.0 == facts[|e.args|]
      && Gathers(Visit(e, fs, c).value.1.accum, c.accum, effs) && GathersTargets(Visit(e, fs, c).value.1.accum, c.accum, effs)
  {
    forall facts, effs | EachAlone(e.args, 0, facts, effs, c) && facts[0] == fs && NoneClash(effs, 0)
      ensures Visit(e, fs, c).Some? && Visit(e, fs, c).value.0 == facts[|e.args|]
      ensures Gathers(Visit(e, fs, c).value.1.accum, c.accum, effs) && GathersTargets(Visit(e, fs, c).value.1.accum, c.accum, effs)
    {
      assert effs[..0] == [];
      ArgsAccepted(e.args, 0, facts, effs, c, c, c.context);
    }
    if Visit(e, fs, c).Some? {
      var facts, effs := ArgsAlone(e.args, [fs], [], c, c, c.context);
      assert EachAlone(e.args, 0, facts, effs, c) && facts[0] == fs && NoneClash(effs, 0);
    }
  }

  // ---------- reads and targets ----------

  predicate MayDangle(v: Variable, fs: FactVec) { v.Coll().IsPointer() && GarbagePtr in Pointees(fs, v.Coll()) }

  /** There is a fact about the pointer, and it lists neither null nor dead storage. */
  predicate IsSafe(v: Variable, fs: FactVec) { Has(fs, v) && NullPtr !in Pointees(fs, v) && GarbagePtr !in Pointees(fs, v) }

  /** The variables on one level of a chain may be accessed: there are some, none is null or dead, and
      what is read cannot hold a dead pointer. */
  ghost predicate LevelOk(level: seq<Variable>, write: bool, fs: FactVec) {
    && level != [] && NullPtr !in level && GarbagePtr !in level
    && (!write ==> forall w :: w in level ==> !MayDangle(w, fs))
  }

  /** `x` stands for a variable on one of the levels `1` to `k` behind `ptrs`. */
  ghost predicate OnLevels(x: Variable, ptrs: seq<Variable>, k: nat, fs: FactVec) {
    exists j, w {:trigger OnLevel(x, w, ptrs, j, fs)} :: 1 <= j <= k && OnLevel(x, w, ptrs, j, fs)
  }

  predicate OnLevel(x: Variable, w: Variable, ptrs: seq<Variable>, j: nat, fs: FactVec) {
    w in Deref(ptrs, j, fs) && x == w.Coll()
  }

  lemma OnLevelsStep(x: Variable, ptrs: seq<Variable>, k: nat, fs: FactVec)
    requires k > 0
    ensures var next := PointeesOfAll(ptrs, fs);
      OnLevels(x, ptrs, k, fs) <==> (exists w :: w in next && x == w.Coll()) || OnLevels(x, next, k - 1, fs)
  {
    var next := PointeesOfAll(ptrs, fs);
    assert Deref(next, 0, fs) == next;
    if j, w :| 1 <= j <= k && OnLevel(x, w, ptrs, j, fs) {
      if j > 1 { assert OnLevel(x, w, next, j - 1, fs); }
    }
    if w :| w in next && x == w.Coll() { assert OnLevel(x, w, ptrs, 1, fs); }
    if j, w :| 1 <= j <= k - 1 && OnLevel(x, w, next, j, fs) { assert OnLevel(x, w, ptrs, j + 1, fs); }
  }

  ghost predicate LevelsOk(ptrs: seq<Variable>, k: nat, write: bool, fs: FactVec) {
    forall j :: 1 <= j <= k ==> LevelOk(Deref(ptrs, j, fs), write && j == k, fs)
  }

  lemma LevelsOkStep(ptrs: seq<Variable>, k: nat, write: bool, fs: FactVec)
    requires k > 0
    ensures var next := PointeesOfAll(ptrs, fs);
      LevelsOk(ptrs, k, write, fs) <==> LevelOk(next, write && k == 1, fs) && LevelsOk(next, k - 1, write, fs)
  {
    var next := PointeesOfAll(ptrs, fs);
    assert Deref(ptrs, 1, fs) == Deref(next, 0, fs) == next;
    if LevelsOk(ptrs, k, write, fs) {
      forall j | 1 <= j <= k - 1 ensures LevelOk(Deref(next, j, fs), write && j == k - 1, fs) {
        assert Deref(ptrs, j + 1, fs) == Deref(next, j, fs);
      }
    }
    if LevelOk(next, write && k == 1, fs) && LevelsOk(next, k - 1, write, fs) {
      forall j | 1 <= j <= k ensures LevelOk(Deref(ptrs, j, fs), write && j == k, fs) {
        assert Deref(ptrs, j, fs) == Deref(next, j - 1, fs);
      }
    }
  }

  lemma {:induction false} CheckEachExactly(vs: seq<Variable>, write: bool, fs: FactVec)
    requires NullPtr !in vs && GarbagePtr !in vs
    ensures CheckEach(vs, write, fs, ALONE).Some? <==> write || forall w :: w in vs ==> !MayDangle(w, fs)
    ensures CheckEach(vs, write, fs, ALONE).Some? ==>
      var a := CheckEach(vs, write, fs, ALONE).value.accum;
      && (forall x :: x in a.readVars <==> !write && exists w :: w in vs && x == w.Coll())
      && (forall x :: x in a.writeVars <==> write && exists w :: w in vs && x == w.Coll())
      && a.lhsWriteVars == {}
    decreases |vs|
  {
    if vs != [] {
      var own := CheckOne(vs[0], write, fs, ALONE);
      forall w ensures w in vs <==> w == vs[0] || w in vs[1..] { assert vs == [vs[0]] + vs[1..]; }
      assert own.None? <==> !write && MayDangle(vs[0], fs);
      CheckEachExactly(vs[1..], write, fs);
      if own.Some? { CheckEachFactors(vs[1..], write, fs, own.value); }
    }
  }

  /** One level of a chain. */
  lemma LevelChecked(level: seq<Variable>, write: bool, fs: FactVec)
    ensures !BadPointees(level) && CheckEach(level, write, fs, ALONE).Some? <==> LevelOk(level, write, fs)
    ensures LevelOk(level, write, fs) ==>
      var a := CheckEach(level, write, fs, ALONE).value.accum;
      && (forall x :: x in a.readVars <==> !write && exists w :: w in level && x == w.Coll())
      && (forall x :: x in a.writeVars <==> write && exists w :: w in level && x == w.Coll())
      && a.lhsWriteVars == {}
  {
    if !BadPointees(level) { CheckEachExactly(level, write, fs); }
  }

  /** What following a chain records. */
  ghost predicate Recorded(a: Effect, ptrs: seq<Variable>, k: nat, write: bool, fs: FactVec) {
    && (forall x :: x in a.readVars <==> OnLevels(x, ptrs, if write && k > 0 then k - 1 else k, fs))
    && (forall x :: x in a.writeVars <==> write && k > 0 && exists w :: w in Deref(ptrs, k, fs) && x == w.Coll())
    && a.lhsWriteVars == {}
  }

  /** The first level, and the rest of the chain. */
  lemma FollowStep(ptrs: seq<Variable>, k: nat, write: bool, fs: FactVec)
    requires k > 0
    ensures var next := PointeesOfAll(ptrs, fs); var rest := Follow(next, k - 1, write, fs, ALONE);
      && (Follow(ptrs, k, write, fs, ALONE).Some? <==> LevelOk(next, write && k == 1, fs) && rest.Some?)
      && (Follow(ptrs, k, write, fs, ALONE).Some? ==>
            Follow(ptrs, k, write, fs, ALONE).value.accum == CheckEach(next, write && k == 1, fs, ALONE).value.accum.Add(rest.value.accum, true))
  {
    var next, last := PointeesOfAll(ptrs, fs), write && k == 1;
    var one := CheckEach(next, last, fs, ALONE);
    LevelChecked(next, last, fs);
    assert Follow(ptrs, k, write, fs, ALONE) == if BadPointees(next) || one.None? then None else Follow(next, k - 1, write, fs, one.value);
    if LevelOk(next, last, fs) { RestFactors(next, k - 1, last, write, fs, one.value); }
  }

  lemma RestFactors(next: seq<Variable>, k: nat, last: bool, write: bool, fs: FactVec, one: Context)
    requires CheckEach(next, last, fs, ALONE) == Some(one)
    ensures var rest := Follow(next, k, write, fs, ALONE);
      && (Follow(next, k, write, fs, one).Some? <==> rest.Some?)
      && (rest.Some? ==> Follow(next, k, write, fs, one).value.accum == one.accum.Add(rest.value.accum, true))
  {
    FollowFactors(next, k, write, fs, one);
    CheckEachFactors(next, last, fs, ALONE);
  }

  /** A chain is accepted exactly if every level is. */
  lemma {:induction false} FollowAccepted(ptrs: seq<Variable>, k: nat, write: bool, fs: FactVec)
    ensures Follow(ptrs, k, write, fs, ALONE).Some? <==> LevelsOk(ptrs, k, write, fs)
    decreases k
  {
    if k > 0 {
      FollowStep(ptrs, k, write, fs);
      LevelsOkStep(ptrs, k, write, fs);
      FollowAccepted(PointeesOfAll(ptrs, fs), k - 1, write, fs);
    }
  }

  /** It records exactly the variables on the levels. */
  lemma {:induction false} FollowExactly(ptrs: seq<Variable>, k: nat, write: bool, fs: FactVec)
    requires Follow(ptrs, k, write, fs, ALONE).Some?
    ensures Recorded(Follow(ptrs, k, write, fs, ALONE).value.accum, ptrs, k, write, fs)
    decreases k
  {
    if k > 0 {
      var next := PointeesOfAll(ptrs, fs);
      FollowStep(ptrs, k, write, fs);
      LevelChecked(next, write && k == 1, fs);
      FollowExactly(next, k - 1, write, fs);
      RecordedStep(ptrs, k, write, fs, CheckEach(next, write && k == 1, fs, ALONE).value.accum, Follow(next, k - 1, write, fs, ALONE).value.accum);
    } else {
      NothingRecorded(ptrs, write, fs);
    }
  }

  lemma NothingRecorded(ptrs: seq<Variable>, write: bool, fs: FactVec)
    ensures LevelsOk(ptrs, 0, write, fs) && Recorded(NO_EFFECT, ptrs, 0, write, fs)
  {}

  lemma RecordedStep(ptrs: seq<Variable>, k: nat, write: bool, fs: FactVec, a: Effect, b: Effect)
    requires k > 0 && Recorded(b, PointeesOfAll(ptrs, fs), k - 1, write, fs) && a.lhsWriteVars == {}
    requires forall x :: x in a.readVars <==> !(write && k == 1) && exists w :: w in PointeesOfAll(ptrs, fs) && x == w.Coll()
    requires forall x :: x in a.writeVars <==> write && k == 1 && exists w :: w in PointeesOfAll(ptrs, fs) && x == w.Coll()
    ensures Recorded(a.Add(b, true), ptrs, k, write, fs)
  {
    var next := PointeesOfAll(ptrs, fs);
    assert Deref(ptrs, 1, fs) == Deref(next, 0, fs) == next;
    forall x ensures x in a.readVars || x in b.readVars <==> OnLevels(x, ptrs, if write then k - 1 else k, fs) {
      var n := if write then k - 1 else k;
      if n > 0 { OnLevelsStep(x, ptrs, n, fs); }
    }
  }

  /** A read is accepted alone exactly if nothing that is read can hold a dead pointer and no level of
      the chain may be null, dead or unknown; it records exactly the variables it may read. */
  lemma ReadExactly(v: Variable, k: int, fs: FactVec)
    ensures Own(Read(v, k), fs).Some? <==>
      k < 0 || (!MayDangle(v, fs) && (k > 0 ==> IsSafe(v, fs) && LevelsOk([v.Coll()], k, false, fs)))
    ensures Own(Read(v, k), fs).Some? ==>
      var (gs, c) := Own(Read(v, k), fs).value;
      && gs == fs && c.accum.writeVars == {} && c.accum.lhsWriteVars == {}
      && forall x :: x in c.accum.readVars <==> k >= 0 && (x == v.Coll() || (k > 0 && OnLevels(x, [v.Coll()], k, fs)))
  {
    var own := CheckRead(v, fs, ALONE);
    if k > 0 && own.Some? {
      FollowFactors([v.Coll()], k, false, fs, own.value);
      FollowAccepted([v.Coll()], k, false, fs);
      if Follow([v.Coll()], k, false, fs, ALONE).Some? { FollowExactly([v.Coll()], k, false, fs); }
    }
  }

  /** The right-hand side has written the pointer itself or one on the way to the target. */
  lemma {:induction false} PtrModifiedExactly(ptrs: seq<Variable>, k: nat, fs: FactVec, written: set<Variable>)
    ensures PtrModified(ptrs, k, fs, written) <==> exists j, x {:trigger On(x, ptrs, j, fs)} :: 1 <= j < k && On(x, ptrs, j, fs) && x in written
    decreases k
  {
    if k > 1 {
      var next := PointeesOfAll(ptrs, fs);
      assert Deref(ptrs, 1, fs) == Deref(next, 0, fs) == next;
      PtrModifiedExactly(next, k - 1, fs, written);
      if x :| x in next && x in written { assert On(x, ptrs, 1, fs); }
      if j, x :| 1 <= j < k - 1 && On(x, next, j, fs) && x in written { assert On(x, ptrs, j + 1, fs); }
      if j, x :| 1 <= j < k && On(x, ptrs, j, fs) && x in written {
        if j > 1 { assert On(x, next, j - 1, fs); }
      }
    }
  }

  predicate On(x: Variable, ptrs: seq<Variable>, j: nat, fs: FactVec) { x in Deref(ptrs, j, fs) }

  /** What the target `v` behind `k` dereferences reads, and what it may be. */
  ghost predicate ReadForTarget(x: Variable, v: Variable, k: nat, fs: FactVec) {
    k > 0 && (x == v.Coll() || OnLevels(x, [v.Coll()], k - 1, fs))
  }

  ghost predicate MayBeTarget(x: Variable, v: Variable, k: nat, fs: FactVec) {
    exists w :: w in Deref([v.Coll()], k, fs) && x == w.Coll()
  }

  /** A target is accepted after a right-hand side with effect `r` exactly if its chain is, no pointer on
      it was written, and neither the chain nor the target meets a target inside the right-hand side. */
  ghost predicate TargetOk(v: Variable, k: nat, fs: FactVec, r: Effect) {
    && (k > 0 ==>
          && IsSafe(v, fs) && !MayDangle(v, fs) && LevelsOk([v.Coll()], k, true, fs)
          && v !in r.writeVars && !(exists j, x {:trigger On(x, [v.Coll()], j, fs)} :: 1 <= j < k && On(x, [v.Coll()], j, fs) && x in r.writeVars))
    && forall x :: ReadForTarget(x, v, k, fs) || MayBeTarget(x, v, k, fs) ==> x !in r.lhsWriteVars
  }

  lemma LhsExactly(v: Variable, k: nat, fs: FactVec, c: Context)
    requires c.context == NO_EFFECT && c.accum == NO_EFFECT && c.noWrite == {}
    ensures VisitLhs(v, k, fs, c).Some? <==> TargetOk(v, k, fs, c.stm.(lhsWriteVars := {}))
    ensures VisitLhs(v, k, fs, c).Some? ==>
      var a := VisitLhs(v, k, fs, c).value.accum;
      && (forall x :: x in a.readVars <==> ReadForTarget(x, v, k, fs))
      && (forall x :: x in a.writeVars <==> MayBeTarget(x, v, k, fs))
      && a.lhsWriteVars == a.writeVars
  {
    if k == 0 {
      assert Deref([v.Coll()], 0, fs) == [v.Coll()] && v.Coll() in [v.Coll()] && v.Coll().Coll() == v.Coll();
    } else {
      PtrModifiedExactly([v.Coll()], k, fs, c.stm.writeVars);
      var step := CheckRead(v, fs, c);
      CheckReadFactors(v, fs, c);
      if step.Some? {
        FollowFactors([v.Coll()], k, true, fs, step.value);
        FollowAccepted([v.Coll()], k, true, fs);
        if Follow([v.Coll()], k, true, fs, ALONE).Some? { FollowExactly([v.Coll()], k, true, fs); }
      }
    }
  }

  /** An assignment is accepted alone exactly if its right-hand side is and then its target; it records
      the accesses of both, and its possible targets as such. */
  lemma AssignExactly(e: Expr, fs: FactVec)
    requires e.Assign?
    ensures Own(e, fs).Some? <==> (Own(e.rhs, fs).Some? && TargetOk(e.v, e.dst, Own(e.rhs, fs).value.0, Own(e.rhs, fs).value.1.accum))
    ensures Own(e, fs).Some? ==>
      var (fs1, r) := Own(e.rhs, fs).value; var (gs, c) := Own(e, fs).value;
      && gs == AssignedFacts(e.v, e.dst, e.rhs, fs1)
      && (forall x :: x in c.accum.readVars <==> x in r.accum.readVars || ReadForTarget(x, e.v, e.dst, fs1))
      && (forall x :: x in c.accum.writeVars <==> x in r.accum.writeVars || MayBeTarget(x, e.v, e.dst, fs1))
      && (forall x :: x in c.accum.lhsWriteVars <==> x in r.accum.lhsWriteVars || MayBeTarget(x, e.v, e.dst, fs1))
  {
    VisitFactors(e.rhs, fs, ALONE);
    if Own(e.rhs, fs).Some? {
      var (fs1, r) := Own(e.rhs, fs).value;
      var lc := ALONE.Param(NO_EFFECT.(writeVars := {} + r.accum.lhsWriteVars)).(stm := r.stm);
      LhsFactors(e.v, e.dst, fs1, lc);
      LhsExactly(e.v, e.dst, fs1, ALONE.(stm := r.stm));
    }
  }

  /** A comma is accepted alone exactly if both sides are, one after the other. */
  lemma CommaExactly(e: Expr, fs: FactVec)
    requires e.Comma?
    ensures Own(e, fs).Some? <==> Own(e.l, fs).Some? && Own(e.r, Own(e.l, fs).value.0).Some?
    ensures Own(e, fs).Some? ==>
      var (fs1, a) := Own(e.l, fs).value; var (fs2, b) := Own(e.r, fs1).value;
      Own(e, fs).value.0 == fs2 && Own(e, fs).value.1.accum == a.accum.Add(b.accum, true)
  {
    VisitFactors(e.l, fs, ALONE);
    if Own(e.l, fs).Some? { VisitFactors(e.r, Own(e.l, fs).value.0, Own(e.l, fs).value.1); }
  }

  /** So is `&&` or `||`; the facts are those with and without the second side, merged. */
  lemma LogicalExactly(e: Expr, fs: FactVec)
    requires e.Logical?
    ensures Own(e, fs).Some? <==> Own(e.l, fs).Some? && Own(e.r, Own(e.l, fs).value.0).Some?
    ensures Own(e, fs).Some? ==>
      var (fs1, a) := Own(e.l, fs).value; var (fs2, b) := Own(e.r, fs1).value;
      Own(e, fs).value.0 == MergedAll(fs2, fs1) && Own(e, fs).value.1.accum == a.accum.Add(b.accum, true)
  {
    VisitFactors(e.l, fs, ALONE);
    if Own(e.l, fs).Some? { VisitFactors(e.r, Own(e.l, fs).value.0, Own(e.l, fs).value.1); }
  }
}
