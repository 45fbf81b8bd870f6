/** Exactly what the facts say after each step of the analysis. */
module Precision {
  // Soundness asks for enough pointees. These lemmas say which ones there are: after dereferences,
  // assignments, merges, declarations, back edges and jumps, the pointees of every variable are
  // given as exact sets.

  import opened Collections
  import opened Variables
  import opened Facts
  import opened PointsTo
  import opened Expressions
  import opened CGContexts
  import opened ExprSound
  import opened Scopes
  import opened Statements
  import opened ScopeSound
  import opened Analysis
  import opened FixedPoint

  // ---------- chains ----------

  /** A chain of `n` facts leads from `v` to `x`. */
  ghost predicate Chain(v: Variable, x: Variable, n: nat, fs: FactVec)
    decreases n
  {
    if n == 0 then x == v else !v.IsSpecial() && exists w :: w in Pointees(fs, v) && Chain(w, x, n - 1, fs)
  }

  ghost predicate FromOne(start: seq<Variable>, x: Variable, n: nat, fs: FactVec) {
    exists v :: v in start && Chain(v, x, n, fs)
  }

  lemma ChainsStep(start: seq<Variable>, x: Variable, n: nat, fs: FactVec)
    requires n > 0
    ensures FromOne(start, x, n, fs) <==> FromOne(PointeesOfAll(start, fs), x, n - 1, fs)
  {
    var next := PointeesOfAll(start, fs);
    if FromOne(start, x, n, fs) {
      var v :| v in start && Chain(v, x, n, fs);
      var w :| w in Pointees(fs, v) && Chain(w, x, n - 1, fs);
      PointeesOfAllMembers(start, fs, [], w);
      assert w in next;
    }
    if FromOne(next, x, n - 1, fs) {
      var w :| w in next && Chain(w, x, n - 1, fs);
      PointeesOfAllMembers(start, fs, [], w);
      var v :| v in start && !v.IsSpecial() && w in Pointees(fs, v);
      assert Chain(v, x, n, fs);
    }
  }

  /** Dereferencing lists exactly the ends of the chains. */
  lemma {:induction false} DerefIsChains(start: seq<Variable>, x: Variable, n: nat, fs: FactVec)
    ensures x in Deref(start, n, fs) <==> FromOne(start, x, n, fs)
    decreases n
  {
    if n == 0 {
      if x in start { assert Chain(x, x, 0, fs); }
    } else {
      ChainsStep(start, x, n, fs);
      DerefIsChains(PointeesOfAll(start, fs), x, n - 1, fs);
    }
  }

  lemma DerefOfOne(v: Variable, n: nat, fs: FactVec)
    ensures forall x :: x in Deref([v], n, fs) <==> Chain(v, x, n, fs)
  {
    forall x ensures x in Deref([v], n, fs) <==> Chain(v, x, n, fs) {
      DerefIsChains([v], x, n, fs);
      assert v in [v];
    }
  }

  /** What a right-hand side may point to: a constant is null or garbage, an address is its variable, a
      read is where its chain leads, an embedded assignment or a comma is its own right-hand side. */
  ghost predicate MayPoint(e: Expr, x: Variable, fs: FactVec) {
    match e
    case Const(level, n) => x == if level > 0 && n == 0 then NullPtr else GarbagePtr
    case Read(v, k) => if k < 0 then x == v.Coll() else Chain(v.Coll(), x, k + 1, fs)
    case Assign(_, _, rhs, _) => MayPoint(rhs, x, fs)
    case Comma(_, r) => MayPoint(r, x, fs)
    case _ => false
  }

  predicate HasPointees(e: Expr) {
    match e
    case Assign(_, _, rhs, _) => HasPointees(rhs)
    case Comma(_, r) => HasPointees(r)
    case _ => e.Const? || e.Read?
  }

  lemma {:induction false} RhsExactly(e: Expr, fs: FactVec)
    ensures RhsPointees(e, fs).Some? <==> HasPointees(e)
    ensures HasPointees(e) ==> forall x :: x in RhsPointees(e, fs).value <==> MayPoint(e, x, fs)
  {
    match e
    case Const(_, _) =>
    case Read(v, k) =>
      if k >= 0 {
        DerefOfOne(v.Coll(), k + 1, fs);
      }
    case Assign(_, _, rhs, _) => RhsExactly(rhs, fs);
    case Comma(_, r) => RhsExactly(r, fs);
    case _ =>
  }

  // ---------- merges ----------

  /** A variable has the pointees it had and those that any of the new facts about it lists. */
  lemma {:induction false} MergedAllMembers(fs: FactVec, ns: FactVec, v: Variable, x: Variable)
    ensures x in Pointees(MergedAll(fs, ns), v) <==>
      x in Pointees(fs, v) || exists n :: n in ns && n.PointTo? && n.v == v && x in n.pts
    decreases |ns|
  {
    if ns != [] {
      var n := ns[0];
      assert ns == [n] + ns[1..];
      MergedMeaning(fs, n, v);
      InToSet(Pointees(Merged(fs, n), v), x);
      InToSet(Pointees(fs, v), x);
      InToSet(if n.PointTo? then n.pts else [], x);
      MergedAllMembers(Merged(fs, n), ns[1..], v, x);
    }
  }

  /** Merging two vectors gives every variable the pointees of both. */
  lemma MergedAllExactly(fs: FactVec, gs: FactVec, v: Variable, x: Variable)
    requires WellFormed(gs)
    ensures x in Pointees(MergedAll(fs, gs), v) <==> x in Pointees(fs, v) || x in Pointees(gs, v)
  {
    MergedAllMembers(fs, gs, v, x);
    var key := PointTo(v, []);
    var i := RelatedIndex(gs, key);
    RelatedIndexFirst(gs, key);
    if i < |gs| { assert gs[i] in gs; }
    forall n | n in gs && n.PointTo? && n.v == v && x in n.pts ensures x in Pointees(gs, v) {
      var k :| 0 <= k < |gs| && gs[k] == n;
      assert Related(gs[k], key);
      assert k == i;
    }
  }

  // ---------- assignments ----------

  /** The analysis knows the one location that is written. */
  ghost predicate CertainTarget(v: Variable, k: nat, t: Variable, fs: FactVec) {
    Deref([v.Coll()], k, fs) == [t] && !t.IsSpecial() && !t.IsArray()
  }

  /** A certain target has exactly the pointees of the right-hand side afterwards, and all other
      variables keep theirs. */
  lemma StrongUpdateExactly(v: Variable, k: nat, rhs: Expr, fs: FactVec, t: Variable)
    requires WellFormed(fs) && k < v.Level() && HasPointees(rhs) && CertainTarget(v, k, t, fs)
    ensures forall x :: x in Pointees(AssignedFacts(v, k, rhs, fs), t) <==> MayPoint(rhs, x, fs)
    ensures forall u :: u != t ==> ToSet(Pointees(AssignedFacts(v, k, rhs, fs), u)) == ToSet(Pointees(fs, u))
  {
    RhsExactly(rhs, fs);
    RhsNoDup(rhs, fs);
    var pts := RhsPointees(rhs, fs).value;
    var n := PointTo(t, pts);
    assert MakeFacts([t], pts) == [n] by { assert [t][1..] == []; }
    PointeesNoDup(fs, t);
    forall u ensures ToSet(Pointees(Renewed(fs, n), u)) == if u == t then ToSet(pts) else ToSet(Pointees(fs, u)) {
      RenewedMeaning(fs, n, u);
    }
    forall x ensures x in Pointees(Renewed(fs, n), t) <==> MayPoint(rhs, x, fs) {
      InToSet(Pointees(Renewed(fs, n), t), x);
      InToSet(pts, x);
    }
  }

  lemma PointeesNoDup(fs: FactVec, v: Variable)
    requires WellFormed(fs)
    ensures NoDup(Pointees(fs, v))
  {
    var i := RelatedIndex(fs, PointTo(v, []));
    if i < |fs| { assert FactNoDup(fs[i]); }
  }

  /** Otherwise every possible target keeps its pointees and may point to what the right-hand side may,
      and nothing else changes. */
  lemma WeakUpdateExactly(v: Variable, k: nat, rhs: Expr, fs: FactVec, u: Variable, x: Variable)
    requires WellFormed(fs) && k < v.Level() && HasPointees(rhs) && forall t :: !CertainTarget(v, k, t, fs)
    ensures x in Pointees(AssignedFacts(v, k, rhs, fs), u) <==>
      x in Pointees(fs, u) || (Chain(v.Coll(), u, k, fs) && !u.IsSpecial() && MayPoint(rhs, x, fs))
  {
    RhsExactly(rhs, fs);
    NotCertain(v, k, rhs, fs);
    DerefOfOne(v.Coll(), k, fs);
    MergedMade(fs, Deref([v.Coll()], k, fs), RhsPointees(rhs, fs).value, u, x);
  }

  lemma MergedMade(fs: FactVec, targets: seq<Variable>, pts: seq<Variable>, u: Variable, x: Variable)
    ensures x in Pointees(MergedAll(fs, MakeFacts(targets, pts)), u) <==> x in Pointees(fs, u) || (u in targets && !u.IsSpecial() && x in pts)
  {
    var facts := MakeFacts(targets, pts);
    MergedAllMembers(fs, facts, u, x);
    if n :| n in facts && n.PointTo? && n.v == u && x in n.pts { MadeFacts(targets, pts, n); }
    if u in targets && !u.IsSpecial() && x in pts { MadeFacts(targets, pts, PointTo(u, pts)); }
  }

  lemma {:induction false} MadeFacts(vs: seq<Variable>, pts: seq<Variable>, f: Fact)
    ensures f in MakeFacts(vs, pts) <==> f.PointTo? && f.v in vs && !f.v.IsSpecial() && f.pts == pts
    decreases |vs|
  {
    if vs != [] {
      assert vs == [vs[0]] + vs[1..];
      MadeFacts(vs[1..], pts, f);
    }
  }

  lemma NotCertain(v: Variable, k: nat, rhs: Expr, fs: FactVec)
    requires k < v.Level() && RhsPointees(rhs, fs).Some? && forall t :: !CertainTarget(v, k, t, fs)
    ensures AssignedFacts(v, k, rhs, fs) == MergedAll(fs, MakeFacts(Deref([v.Coll()], k, fs), RhsPointees(rhs, fs).value))
  {
    var targets := Deref([v.Coll()], k, fs);
    if |targets| == 1 {
      assert targets == [targets[0]] && targets[1..] == [];
      assert !CertainTarget(v, k, targets[0], fs);
    }
  }

  /** Assigning to something that is no pointer, or from something that has no pointees, changes nothing. */
  lemma NoUpdate(v: Variable, k: nat, rhs: Expr, fs: FactVec)
    requires v.Level() <= k || !HasPointees(rhs)
    ensures AssignedFacts(v, k, rhs, fs) == fs
  {
    RhsExactly(rhs, fs);
  }

  // ---------- declarations ----------

  /** A new local may point to exactly what its initialisers name; the others keep their pointees. */
  lemma LocalExactly(fs: FactVec, d: Decl)
    requires d.v.Level() > 0 && !Has(fs, d.v)
    ensures forall x :: x in Pointees(AddedLocal(fs, d), d.v) <==> exists i :: i in d.inits && x == InitPointee(i)
    ensures forall u :: u != d.v ==> Pointees(AddedLocal(fs, d), u) == Pointees(fs, u) && (Has(AddedLocal(fs, d), u) <==> Has(fs, u))
  {
    var more := InitFacts(d.v, d.inits);
    InitFactsExactly(d.v, d.inits);
    assert more == [] || (more[1..] == [] && more == [more[0]]);
    if more != [] {
      var n := more[0];
      RelatedIndexSame(fs, n, PointTo(d.v, []));
      assert AddedMissing(fs, more) == fs + [n];
      forall u
        ensures Pointees(fs + [n], u) == if u == d.v then n.pts else Pointees(fs, u)
        ensures u != d.v ==> (Has(fs + [n], u) <==> Has(fs, u))
      {
        PutMeaning(fs, n, u);
      }
    }
  }

  ghost predicate Initial(facts: FactVec, v: Variable, inits: seq<Init>) {
    if inits == [] then facts == []
    else
      && |facts| == 1 && facts[0].PointTo? && facts[0].v == v
      && forall x :: x in facts[0].pts <==> exists i :: i in inits && x == InitPointee(i)
  }

  lemma {:induction false} InitFactsExactly(v: Variable, inits: seq<Init>)
    ensures Initial(InitFacts(v, inits), v, inits)
  {
    if inits != [] {
      var k := |inits| - 1;
      InitFactsExactly(v, inits[..k]);
      InitialStep(InitFacts(v, inits[..k]), v, inits[..k], inits[k]);
      assert inits == inits[..k] + [inits[k]];
    }
  }

  lemma InitialStep(before: FactVec, v: Variable, inits: seq<Init>, last: Init)
    requires Initial(before, v, inits)
    ensures Initial(Merged(before, PointTo(v, [InitPointee(last)])), v, inits + [last])
  {
    var n := PointTo(v, [InitPointee(last)]);
    var after := Merged(before, n);
    if inits == [] {
      assert after == [n];
    } else {
      assert RelatedIndex(before, n) == 0;
      assert |after| == 1 && after[0].PointTo? && after[0].v == v;
      forall x ensures x in after[0].pts <==> x == InitPointee(last) || x in before[0].pts {
        AddVarsMembers(n.pts, before[0].pts, x);
      }
    }
    forall x ensures x in after[0].pts <==> exists i :: i in inits + [last] && x == InitPointee(i) {
      if x == InitPointee(last) { assert last in inits + [last]; }
      if i :| i in inits && x == InitPointee(i) { assert i in inits + [last]; }
    }
  }

  /** A local that has a fact already keeps it. */
  lemma KnownLocalExactly(fs: FactVec, d: Decl)
    requires d.v.Level() == 0 || Has(fs, d.v)
    ensures AddedLocal(fs, d) == fs
  {
    if d.v.Level() > 0 {
      InitFactsExactly(d.v, d.inits);
      var more := InitFacts(d.v, d.inits);
      if more != [] {
        RelatedIndexSame(fs, more[0], PointTo(d.v, []));
        assert more[1..] == [] && AddedMissing(fs, more) == AddedMissing(fs, more[1..]);
      }
    }
  }

  /** The pointer locals of a block have exactly what their own initialisers name, and everything else
      keeps its pointees. */
  lemma {:induction false} LocalsExactly(fs: FactVec, ds: seq<Decl>, i: nat, u: Variable)
    requires i < |ds| && NoDup(DeclVars(ds)) && forall d :: d in ds ==> !Has(fs, d.v)
    ensures ds[i].v.Level() > 0 ==> forall x :: x in Pointees(AddedLocals(fs, ds), ds[i].v) <==> exists t :: t in ds[i].inits && x == InitPointee(t)
    ensures u !in DeclVars(ds) ==> Pointees(AddedLocals(fs, ds), u) == Pointees(fs, u)
    decreases |ds|
  {
    var d, gs, rest := ds[0], AddedLocal(fs, ds[0]), ds[1..];
    assert d in ds && DeclVars(ds)[0] == d.v && DeclVars(rest) == DeclVars(ds)[1..];
    if d.v.Level() > 0 { LocalExactly(fs, d); }
    forall e | e in rest ensures !Has(gs, e.v) {
      var k :| 0 <= k < |rest| && rest[k] == e;
      assert DeclVars(ds)[k + 1] == e.v && e in ds;
    }
    OthersKept(gs, rest, d.v);
    if i > 0 { LocalsExactly(gs, rest, i - 1, u); }
    if u !in DeclVars(ds) { OthersKept(fs, ds, u); }
  }

  lemma {:induction false} OthersKept(fs: FactVec, ds: seq<Decl>, u: Variable)
    requires u !in DeclVars(ds) && NoDup(DeclVars(ds)) && forall d :: d in ds ==> !Has(fs, d.v)
    ensures Pointees(AddedLocals(fs, ds), u) == Pointees(fs, u)
    decreases |ds|
  {
    if ds != [] {
      var d, gs, rest := ds[0], AddedLocal(fs, ds[0]), ds[1..];
      assert d in ds && DeclVars(ds)[0] == d.v && DeclVars(rest) == DeclVars(ds)[1..];
      if d.v.Level() > 0 { LocalExactly(fs, d); }
      forall e | e in rest ensures !Has(gs, e.v) {
        var k :| 0 <= k < |rest| && rest[k] == e;
        assert DeclVars(ds)[k + 1] == e.v && e in ds;
      }
      OthersKept(gs, rest, u);
    }
  }

  // ---------- back edges and jumps ----------

  /** Every variable has the pointees it had, and those it has at the end of any back edge. */
  lemma {:induction false} MergedSourcesExactly(fs: FactVec, srcs: seq<nat>, fo: FactMap, v: Variable, x: Variable)
    requires forall id :: id in srcs ==> WellFormed(At(fo, id))
    ensures x in Pointees(MergedSources(fs, srcs, fo), v) <==> x in Pointees(fs, v) || exists id :: id in srcs && x in Pointees(At(fo, id), v)
    decreases |srcs|
  {
    if srcs != [] {
      assert srcs == [srcs[0]] + srcs[1..];
      MergedAllExactly(fs, At(fo, srcs[0]), v, x);
      MergedSourcesExactly(MergedAll(fs, At(fo, srcs[0])), srcs[1..], fo, v, x);
    }
  }

  /** A jump brings the pointees it was taken with, and garbage to what it does not know; variables
      that are unknown where it leads stay so. */
  ghost predicate BroughtBy(jump: FactVec, v: Variable, x: Variable) {
    if Has(jump, v) then x in Pointees(jump, v) else x == GarbagePtr
  }

  lemma JumpMergedExactly(fs: FactVec, jump: FactVec, v: Variable, x: Variable)
    requires WellFormed(fs)
    ensures x in Pointees(JumpMerged(fs, jump), v) <==> x in Pointees(fs, v) || (Has(fs, v) && BroughtBy(jump, v, x))
    ensures Has(JumpMerged(fs, jump), v) <==> Has(fs, v)
  {
    var ns, key := JumpFacts(fs, jump), PointTo(v, []);
    var i := RelatedIndex(fs, key);
    RelatedIndexFirst(fs, key);
    MergedAllMembers(fs, ns, v, x);
    forall k | 0 <= k < |fs| ensures Related(ns[k], fs[k]) {}
    if i < |fs| {
      RelatedIndexSame(jump, fs[i], key);
      assert ns[i] in ns && (x in ns[i].pts <==> BroughtBy(jump, v, x));
    }
    forall n | n in ns && n.PointTo? && n.v == v ensures i < |fs| && n == ns[i] {
      var k :| 0 <= k < |ns| && ns[k] == n;
      assert Related(fs[k], key);
      assert k >= i;
      assert k > i ==> !Related(fs[i], fs[k]);
    }
    MergedAllMeaning(fs, ns, v);
    HasInJumpFacts(fs, jump, v);
  }

  lemma HasInJumpFacts(fs: FactVec, jump: FactVec, v: Variable)
    ensures Has(JumpFacts(fs, jump), v) <==> Has(fs, v)
  {
    var ns, key := JumpFacts(fs, jump), PointTo(v, []);
    RelatedIndexFirst(fs, key);
    RelatedIndexFirst(ns, key);
    forall k | 0 <= k < |fs| ensures Related(ns[k], fs[k]) {}
  }

  lemma {:induction false} JumpMergedAllExactly(fs: FactVec, srcs: seq<nat>, fo: FactMap, v: Variable, x: Variable)
    requires WellFormed(fs) && forall id :: id in srcs ==> WellFormed(At(fo, id))
    ensures x in Pointees(JumpMergedAll(fs, srcs, fo), v) <==>
      x in Pointees(fs, v) || (Has(fs, v) && exists id :: id in srcs && BroughtBy(At(fo, id), v, x))
    decreases |srcs|
  {
    if srcs != [] {
      var jump := At(fo, srcs[0]);
      assert srcs == [srcs[0]] + srcs[1..];
      JumpMergedExactly(fs, jump, v, x);
      JumpFactsWellFormed(fs, jump);
      JumpMergedAllExactly(JumpMerged(fs, jump), srcs[1..], fo, v, x);
    }
  }

  lemma JumpFactsWellFormed(fs: FactVec, jump: FactVec)
    requires WellFormed(fs) && WellFormed(jump)
    ensures WellFormed(JumpMerged(fs, jump))
  {
    var ns := JumpFacts(fs, jump);
    forall k | 0 <= k < |fs| ensures Related(ns[k], fs[k]) && FactNoDup(ns[k]) {
      var i := RelatedIndex(jump, fs[k]);
      if i < |jump| { assert FactNoDup(jump[i]); }
    }
    MergedAllWellFormed(fs, ns);
  }
}
