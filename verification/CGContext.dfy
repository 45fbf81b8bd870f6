/** The effect system: which reads and writes an expression performs, and whether they are allowed
    next to the effects of the expressions it is unsequenced with. */
module CGContexts {
  import opened Collections
  import opened Variables
  import opened Facts
  import opened PointsTo
  import opened Expressions

  datatype Effect = Effect(readVars: set<Variable>, writeVars: set<Variable>, lhsWriteVars: set<Variable>)
  {
    function Read(v: Variable): Effect { this.(readVars := readVars + {v}) }

    function Write(v: Variable): Effect { this.(writeVars := writeVars + {v}) }

    function Add(e: Effect, includeLhs: bool): Effect {
      Effect(readVars + e.readVars, writeVars + e.writeVars, if includeLhs then lhsWriteVars + e.lhsWriteVars else lhsWriteVars)
    }
  }

  const NO_EFFECT := Effect({}, {}, {})

  /** The state of a `CGContext`: the effects of the surroundings, the effects accumulated so far
      for the surroundings to come and for the current statement, and the variables that must not
      be written (constants and induction variables of enclosing loops). */
  datatype Context = Context(context: Effect, accum: Effect, stm: Effect, noWrite: set<Variable>)
  {
    function Merge(e: Effect, includeLhs: bool): Context {
      this.(accum := accum.Add(e, includeLhs), stm := stm.Add(e, false))
    }

    /** The context in which a subexpression is visited under the given surroundings. */
    function Param(running: Effect): Context { Context(running, NO_EFFECT, NO_EFFECT, noWrite) }
  }

  // ---------- specification ----------

  function CheckRead(v: Variable, fs: FactVec, c: Context): Option<Context> {
    var w := v.Coll();
    if w in c.context.writeVars || (w.IsPointer() && MayBeDead(fs, w)) then None
    else Some(c.(accum := c.accum.Read(w), stm := c.stm.Read(w)))
  }

  function CheckWrite(v: Variable, fs: FactVec, c: Context): Option<Context> {
    var w := v.Coll();
    if w in c.noWrite || w in c.context.writeVars || w in c.context.readVars then None
    else Some(c.(accum := c.accum.Write(w), stm := c.stm.Write(w)))
  }

  function CheckEach(vs: seq<Variable>, write: bool, fs: FactVec, c: Context): Option<Context>
    decreases |vs|
  {
    if vs == [] then Some(c)
    else
      var r := if vs[0].IsSpecial() then Some(c)
               else if write then CheckWrite(vs[0], fs, c) else CheckRead(vs[0], fs, c);
      match r
      case None => None
      case Some(c') => CheckEach(vs[1..], write, fs, c')
  }

  predicate BadPointees(vs: seq<Variable>) {
    vs == [] || NullPtr in vs || GarbagePtr in vs
  }

  /** The checks along a chain of `k` dereferences from any of `ptrs`: every intermediate pointee
      must be readable, and the last ones readable or, for `write`, writable. */
  function Follow(ptrs: seq<Variable>, k: nat, write: bool, fs: FactVec, c: Context): Option<Context>
    decreases k
  {
    if k == 0 then Some(c)
    else
      var next := PointeesOfAll(ptrs, fs);
      if BadPointees(next) then None
      else match CheckEach(next, write && k == 1, fs, c)
        case None => None
        case Some(c') => Follow(next, k - 1, write, fs, c')
  }

  function VisitRead(v: Variable, k: int, fs: FactVec, c: Context): Option<Context> {
    if k < 0 then Some(c)
    else if k == 0 then CheckRead(v, fs, c)
    else if !IsValidPtr(fs, v) then None
    else match CheckRead(v, fs, c)
      case None => None
      case Some(c') => Follow([v.Coll()], k, false, fs, c')
  }

  predicate PtrModified(ptrs: seq<Variable>, k: nat, fs: FactVec, written: set<Variable>)
    decreases k
  {
    k > 1 && var next := PointeesOfAll(ptrs, fs);
      (exists v :: v in next && v in written) || PtrModified(next, k - 1, fs, written)
  }

  function VisitLhs(v: Variable, k: nat, fs: FactVec, c: Context): Option<Context> {
    var r :=
      if k == 0 then CheckWrite(v, fs, c)
      else if !IsValidPtr(fs, v) || v in c.stm.writeVars || PtrModified([v.Coll()], k, fs, c.stm.writeVars) then None
      else match CheckRead(v, fs, c)
        case None => None
        case Some(c') => Follow([v.Coll()], k, true, fs, c');
    match r
    case None => None
    case Some(c') => Some(c'.(accum := c'.accum.(lhsWriteVars := c'.accum.writeVars)))
  }

  /** The pointees an expression contributes to the left-hand sides it is assigned to. */
  function RhsPointees(e: Expr, fs: FactVec): Option<seq<Variable>> {
    match e
    case Const(level, n) => Some([if level > 0 && n == 0 then NullPtr else GarbagePtr])
    case Read(v, k) => if k < 0 then Some([v.Coll()]) else Some(Deref([v.Coll()], k + 1, fs))
    case Assign(_, _, rhs, _) => RhsPointees(rhs, fs)
    case Comma(_, r) => RhsPointees(r, fs)
    case _ => None
  }

  function MakeFacts(vs: seq<Variable>, pts: seq<Variable>): FactVec
    decreases |vs|
  {
    if vs == [] then []
    else (if vs[0].IsSpecial() then [] else [PointTo(vs[0], pts)]) + MakeFacts(vs[1..], pts)
  }

  /** The facts after an assignment: a certain, non-array target is renewed, others are merged. */
  function AssignedFacts(v: Variable, k: nat, rhs: Expr, fs: FactVec): FactVec {
    if v.Level() <= k then fs
    else
      var targets := Deref([v.Coll()], k, fs);
      var facts := match RhsPointees(rhs, fs) case None => [] case Some(pts) => MakeFacts(targets, pts);
      if facts == [] then fs
      else if |targets| == 1 && !facts[0].v.IsArray() then Renewed(fs, facts[0])
      else MergedAll(fs, facts)
  }

  function Visit(e: Expr, fs: FactVec, c: Context): Option<(FactVec, Context)>
    decreases e
  {
    match e
    case Const(_, _) => Some((fs, c))
    case Read(v, k) => (match VisitRead(v, k, fs, c) case None => None case Some(c') => Some((fs, c')))
    case Assign(v, dst, rhs, _) =>
      (match Visit(rhs, fs, c.Param(c.context))
       case None => None
       case Some((fs1, r)) =>
         var c1 := c.Merge(r.accum, true);
         var running := c.context.(writeVars := c.context.writeVars + r.accum.lhsWriteVars);
         match VisitLhs(v, dst, fs1, c.Param(running).(stm := r.stm))
         case None => None
         case Some(l) => Some((AssignedFacts(v, dst, rhs, fs1), c1.Merge(l.accum, true))))
    case Comma(l, r) =>
      (match Visit(l, fs, c)
       case None => None
       case Some((fs1, c1)) => Visit(r, fs1, c1))
    case Logical(_, l, r) =>
      (match Visit(l, fs, c)
       case None => None
       case Some((fs1, c1)) =>
         match Visit(r, fs1, c1)
         case None => None
         case Some((fs2, c2)) => Some((MergedAll(fs2, fs1), c2)))
    case Op(_, args, _) => VisitArgs(args, 0, fs, c, c.context)
  }

  /** The operands from number `i` on; `running` holds the effects of the surroundings and of the
      operands before. */
  function VisitArgs(args: seq<Expr>, i: nat, fs: FactVec, c: Context, running: Effect): Option<(FactVec, Context)>
    requires i <= |args|
    decreases args, |args| - i
  {
    if i == |args| then Some((fs, c))
    else match Visit(args[i], fs, c.Param(running))
      case None => None
      case Some((fs1, p)) =>
        VisitArgs(args, i + 1, fs1, c.Merge(p.accum, true), running.Add(p.accum, false))
  }

  // ---------- the object that performs the visit ----------

  /** An effect that clashes neither with the surroundings nor with the write restrictions. */
  predicate Fits(e: Effect, around: Effect, noWrite: set<Variable>) {
    && e.readVars !! around.writeVars
    && e.writeVars !! noWrite && e.writeVars !! around.writeVars && e.writeVars !! around.readVars
  }

  /** A recorded effect fits its surroundings exactly if every access in it would pass its own check
      there again, under any facts by which the pointers it reads are not dead. */
  lemma FitsMeaning(e: Effect, c: Context, fs: FactVec)
    requires forall v :: v in e.readVars + e.writeVars ==> v.Coll() == v
    requires forall v :: v in e.readVars && v.IsPointer() ==> !MayBeDead(fs, v)
    ensures Fits(e, c.context, c.noWrite) <==>
      && (forall v :: v in e.readVars ==> CheckRead(v, fs, c).Some?)
      && (forall v :: v in e.writeVars ==> CheckWrite(v, fs, c).Some?)
  {
    forall v | v in e.readVars ensures CheckRead(v, fs, c).Some? <==> v !in c.context.writeVars {
      assert v in e.readVars + e.writeVars;
    }
    forall v | v in e.writeVars
      ensures CheckWrite(v, fs, c).Some? <==> v !in c.noWrite && v !in c.context.writeVars && v !in c.context.readVars
    {
      assert v in e.readVars + e.writeVars;
    }
  }

  class CGContext {
    var effectContext: Effect
    var effectAccum: Effect
    var effectStm: Effect
    var noWrite: set<Variable>

    function View(): Context
      reads this
    {
      Context(effectContext, effectAccum, effectStm, noWrite)
    }

    constructor (context: Effect, noWrite: set<Variable>)
      ensures View() == Context(context, NO_EFFECT, NO_EFFECT, noWrite)
    {
      effectContext, effectAccum, effectStm := context, NO_EFFECT, NO_EFFECT;
      this.noWrite := noWrite;
    }

    method CheckReadVar(v: Variable, facts: FactVec) returns (ok: bool)
      modifies this
      ensures ok <==> CheckRead(v, facts, old(View())).Some?
      ensures View() == if ok then CheckRead(v, facts, old(View())).value else old(View())
    {
      var w := v.Coll();
      if w in effectContext.writeVars { return false; }
      if w.IsPointer() && MayBeDead(facts, w) { return false; }
      effectAccum := effectAccum.Read(w);
      effectStm := effectStm.Read(w);
      return true;
    }

    method CheckWriteVar(v: Variable, facts: FactVec) returns (ok: bool)
      modifies this
      ensures ok <==> CheckWrite(v, facts, old(View())).Some?
      ensures View() == if ok then CheckWrite(v, facts, old(View())).value else old(View())
    {
      var w := v.Coll();
      if w in noWrite { return false; }
      if w in effectContext.writeVars { return false; }
      if w in effectContext.readVars { return false; }
      effectAccum := effectAccum.Write(w);
      effectStm := effectStm.Write(w);
      return true;
    }

    /** Checks one level of pointees; stops at the first that is not accessible. */
    method CheckPointees(vs: seq<Variable>, write: bool, facts: FactVec) returns (ok: bool)
      modifies this
      ensures ok <==> CheckEach(vs, write, facts, old(View())).Some?
      ensures ok ==> View() == CheckEach(vs, write, facts, old(View())).value
      ensures effectContext == old(effectContext) && noWrite == old(noWrite)
    {
      var i := 0;
      while i < |vs|
        invariant 0 <= i <= |vs|
        invariant CheckEach(vs, write, facts, old(View())) == CheckEach(vs[i..], write, facts, View())
        invariant effectContext == old(effectContext) && noWrite == old(noWrite)
      {
        assert vs[i..][1..] == vs[i + 1..];
        if !vs[i].IsSpecial() {
          if write {
            ok := CheckWriteVar(vs[i], facts);
          } else {
            ok := CheckReadVar(vs[i], facts);
          }
          if !ok { return; }
        }
        i := i + 1;
      }
      ok := true;
    }

    /** `read_pointed` and `write_pointed`. A rejected chain leaves the accumulated effect, the
        surroundings and the write restrictions as they were. */
    method AccessPointed(v: Variable, indirect: nat, write: bool, facts: FactVec) returns (ok: bool)
      modifies this
      ensures ok <==> Follow([v.Coll()], indirect, write, facts, old(View())).Some?
      ensures ok ==> View() == Follow([v.Coll()], indirect, write, facts, old(View())).value
      ensures !ok ==> View() == old(View()).(stm := effectStm)
      ensures effectContext == old(effectContext) && noWrite == old(noWrite)
    {
      var saved := effectAccum;
      var tmp, k := [v.Coll()], indirect;
      ghost var goal := Follow(tmp, k, write, facts, View());
      ok := true;
      while ok && k > 0
        invariant if ok then goal == Follow(tmp, k, write, facts, View()) else goal.None?
        invariant effectContext == old(effectContext) && noWrite == old(noWrite)
        decreases k, ok
      {
        tmp := MergePointeesOfPointers(tmp, facts);
        if BadPointees(tmp) {
          ok := false;
        } else {
          ok := CheckPointees(tmp, write && k == 1, facts);
        }
        k := k - 1;
      }
      if !ok { effectAccum := saved; }
    }

    method PtrModifiedInRhs(v: Variable, indirect: nat, facts: FactVec) returns (modified: bool)
      requires indirect > 0
      ensures modified <==> v in effectStm.writeVars || PtrModified([v.Coll()], indirect, facts, effectStm.writeVars)
    {
      var tmp, k := [v.Coll()], indirect;
      ghost var goal := PtrModified(tmp, k, facts, effectStm.writeVars);
      modified := v in effectStm.writeVars;
      while !modified && k > 1
        invariant k > 0
        invariant v in effectStm.writeVars ==> modified
        invariant v !in effectStm.writeVars ==>
          if modified then goal else goal == PtrModified(tmp, k, facts, effectStm.writeVars)
        decreases k
      {
        tmp := MergePointeesOfPointers(tmp, facts);
        modified := AnyWritten(tmp);
        k := k - 1;
      }
    }

    method AnyWritten(vs: seq<Variable>) returns (any: bool)
      ensures any <==> exists v :: v in vs && v in effectStm.writeVars
    {
      any := false;
      for i := 0 to |vs|
        invariant any <==> exists v :: v in vs[..i] && v in effectStm.writeVars
      {
        assert vs[..i + 1] == vs[..i] + [vs[i]];
        if vs[i] in effectStm.writeVars { any := true; }
      }
      assert vs[..|vs|] == vs;
    }

    method VisitVariable(v: Variable, k: int, facts: FactVec) returns (ok: bool)
      modifies this
      ensures ok <==> VisitRead(v, k, facts, old(View())).Some?
      ensures ok ==> View() == VisitRead(v, k, facts, old(View())).value
      ensures effectContext == old(effectContext) && noWrite == old(noWrite)
    {
      if k > 0 {
        if !IsValidPtr(facts, v) { return false; }
        ok := CheckReadVar(v, facts);
        if ok { ok := AccessPointed(v, k, false, facts); }
      } else if k < 0 {
        ok := true;
      } else {
        ok := CheckReadVar(v, facts);
      }
    }

    method VisitLeft(v: Variable, k: nat, facts: FactVec) returns (ok: bool)
      modifies this
      ensures ok <==> VisitLhs(v, k, facts, old(View())).Some?
      ensures ok ==> View() == VisitLhs(v, k, facts, old(View())).value
      ensures effectContext == old(effectContext) && noWrite == old(noWrite)
    {
      if k > 0 {
        if !IsValidPtr(facts, v) { return false; }
        var modified := PtrModifiedInRhs(v, k, facts);
        if modified { return false; }
        ok := CheckReadVar(v, facts);
        if ok { ok := AccessPointed(v, k, true, facts); }
      } else {
        ok := CheckWriteVar(v, facts);
      }
      if ok { effectAccum := effectAccum.(lhsWriteVars := effectAccum.writeVars); }
    }

    method MergeParamContext(p: CGContext, includeLhs: bool)
      modifies this
      requires p != this
      ensures View() == old(View()).Merge(p.effectAccum, includeLhs)
    {
      effectAccum := effectAccum.Add(p.effectAccum, includeLhs);
      effectStm := effectStm.Add(p.effectAccum, false);
    }

    /** `in_conflict`: whether a recorded effect clashes with the surroundings. */
    method InConflict(e: Effect) returns (clash: bool)
      ensures clash <==> !Fits(e, effectContext, noWrite)
    {
      var rest := e.readVars;
      while rest != {}
        invariant rest <= e.readVars && e.readVars - rest !! effectContext.writeVars
        decreases |rest|
      {
        var v :| v in rest;
        if v in effectContext.writeVars { return true; }
        rest := rest - {v};
      }
      rest := e.writeVars;
      while rest != {}
        invariant rest <= e.writeVars
        invariant e.writeVars - rest !! noWrite + effectContext.writeVars + effectContext.readVars
        decreases |rest|
      {
        var v :| v in rest;
        if v in noWrite || v in effectContext.writeVars || v in effectContext.readVars { return true; }
        rest := rest - {v};
      }
      return false;
    }

    method AddEffect(e: Effect)
      modifies this
      ensures View() == old(View()).Merge(e, false)
    {
      effectAccum := effectAccum.Add(e, false);
      effectStm := effectStm.Add(e, false);
    }

    /** Analyses one expression: on success `inputs` become `outputs` and the effects of the
        expression are added to this context. */
    method VisitFacts(e: Expr, inputs: FactVec) returns (ok: bool, outputs: FactVec)
      modifies this
      ensures ok <==> Visit(e, inputs, old(View())).Some?
      ensures ok ==> (outputs, View()) == Visit(e, inputs, old(View())).value
      ensures effectContext == old(effectContext) && noWrite == old(noWrite)
      decreases e
    {
      outputs := inputs;
      match e
      case Const(_, _) =>
        ok := true;
      case Read(v, k) =>
        ok := VisitVariable(v, k, inputs);
      case Assign(v, dst, rhs, _) =>
        var r := new CGContext(effectContext, noWrite);
        ok, outputs := r.VisitFacts(rhs, inputs);
        if !ok { return; }
        MergeParamContext(r, true);
        var running := effectContext.(writeVars := effectContext.writeVars + r.effectAccum.lhsWriteVars);
        var l := new CGContext(running, noWrite);
        l.effectStm := r.effectStm;
        ok := l.VisitLeft(v, dst, outputs);
        if !ok { return; }
        MergeParamContext(l, true);
        outputs := UpdateFactForAssign(v, dst, rhs, outputs);
      case Comma(l, r) =>
        ok, outputs := VisitFacts(l, inputs);
        if ok { ok, outputs := VisitFacts(r, outputs); }
      case Logical(_, l, r) =>
        ok, outputs := VisitFacts(l, inputs);
        if ok {
          var skipped := outputs;
          ok, outputs := VisitFacts(r, outputs);
          if ok {
            var changed;
            outputs, changed := MergeFacts(outputs, skipped);
          }
        }
      case Op(_, args, _) =>
        var running := effectContext;
        var i := 0;
        while i < |args|
          invariant 0 <= i <= |args|
          invariant Visit(e, inputs, old(View())) == VisitArgs(args, i, outputs, View(), running)
          invariant effectContext == old(effectContext) && noWrite == old(noWrite)
        {
          var p := new CGContext(running, noWrite);
          ok, outputs := p.VisitFacts(args[i], outputs);
          if !ok { return; }
          running := running.Add(p.effectAccum, false);
          MergeParamContext(p, true);
          i := i + 1;
        }
        ok := true;
    }
  }

  /** `FactMgr::update_fact_for_assign` for points-to facts. */
  method UpdateFactForAssign(v: Variable, k: nat, rhs: Expr, inputs: FactVec) returns (r: FactVec)
    ensures r == AssignedFacts(v, k, rhs, inputs)
  {
    r := inputs;
    if v.Level() <= k { return; }
    var targets := MergePointeesOfPointer(v.Coll(), k, inputs);
    var pts := RhsPointees(rhs, inputs);
    if pts.None? { return; }
    var facts := MakeFacts(targets, pts.value);
    if |facts| > 0 {
      var changed;
      if |targets| == 1 && !facts[0].v.IsArray() {
        r, changed := RenewFact(inputs, facts[0]);
      } else {
        r, changed := MergeFacts(inputs, facts);
      }
    }
  }
}
