/** Which facts a caller hands over to a callee. */
module Handover {
  import opened Collections
  import opened Variables
  import opened Facts
  import opened PointsTo
  import opened Expressions
  import opened CGContexts
  import opened ExprSound
  import opened OrderIndependence
  import opened Precision

  // ---------- what has to be kept ----------

  predicate PointsAt(f: Fact, v: Variable) {
    f.PointTo? && exists p :: p in f.pts && v.LooseMatch(p)
  }

  /** `kept` contains the facts of the roots and, with a fact that may point to a variable, the facts
      about that variable. */
  ghost predicate Closed(fs: FactVec, roots: set<Variable>, kept: set<Fact>) {
    forall f :: f in fs ==>
      (f.v in roots ==> f in kept) && forall g :: g in kept && PointsAt(g, f.v) ==> f in kept
  }

  /** No closed set of facts of `fs` can do without `f`. */
  ghost predicate Needed(fs: FactVec, roots: set<Variable>, f: Fact) {
    forall kept: set<Fact> :: Closed(fs, roots, kept) ==> f in kept
  }

  ghost predicate AllNeeded(fs: FactVec, roots: set<Variable>, keep: FactVec) {
    forall f :: f in keep ==> Needed(fs, roots, f)
  }

  /** `keep` and `rest` share out the facts `fs`: none is lost and none is doubled. */
  ghost predicate Shared(fs: FactVec, keep: FactVec, rest: FactVec) {
    multiset(keep) + multiset(rest) == multiset(fs)
  }

  lemma MoveFact(fs: FactVec, keep: FactVec, rest: FactVec, i: nat)
    requires Shared(fs, keep, rest) && i < |rest|
    ensures Shared(fs, keep + [rest[i]], Without(rest, i))
    ensures rest[i] in fs
  {
    assert rest == rest[..i] + [rest[i]] + rest[i + 1..];
    assert rest[i] in multiset(rest);
    assert rest[i] in multiset(fs);
  }

  // ---------- the handover ----------

  method MayPointTo(f: Fact, v: Variable) returns (found: bool)
    requires f.PointTo?
    ensures found <==> PointsAt(f, v)
  {
    var i := 0;
    found := false;
    while i < |f.pts| && !found
      invariant 0 <= i <= |f.pts|
      invariant found ==> PointsAt(f, v)
      invariant !found ==> forall k :: 0 <= k < i ==> !v.LooseMatch(f.pts[k])
    {
      found := v.LooseMatch(f.pts[i]);
      i := i + 1;
    }
  }

  method IsPointedTo(keep: FactVec, v: Variable) returns (found: bool)
    ensures found <==> exists g :: g in keep && PointsAt(g, v)
  {
    var j := 0;
    found := false;
    while j < |keep| && !found
      invariant 0 <= j <= |keep|
      invariant found ==> exists g :: g in keep && PointsAt(g, v)
      invariant !found ==> forall k :: 0 <= k < j ==> !PointsAt(keep[k], v)
    {
      if keep[j].PointTo? { found := MayPointTo(keep[j], v); }
      j := j + 1;
    }
  }

  /** Moves the facts of globals and parameters to the kept ones, erasing while walking. */
  method MoveRoots(inputs: FactVec, roots: set<Variable>) returns (keep: FactVec, rest: FactVec)
    ensures Shared(inputs, keep, rest) && AllNeeded(inputs, roots, keep)
    ensures forall f :: f in rest ==> f.v !in roots
  {
    keep, rest := [], inputs;
    var i := 0;
    while i < |rest|
      invariant 0 <= i <= |rest|
      invariant Shared(inputs, keep, rest) && AllNeeded(inputs, roots, keep)
      invariant forall k :: 0 <= k < i ==> rest[k].v !in roots
      decreases |rest| - i
    {
      if rest[i].v in roots {
        MoveFact(inputs, keep, rest, i);
        keep, rest := keep + [rest[i]], Without(rest, i);
      } else {
        i := i + 1;
      }
    }
  }

  /** One round of the closure loop. */
  method MovePointees(inputs: FactVec, roots: set<Variable>, keep0: FactVec, rest0: FactVec) returns (keep: FactVec, rest: FactVec)
    requires Shared(inputs, keep0, rest0) && AllNeeded(inputs, roots, keep0)
    ensures Shared(inputs, keep, rest) && AllNeeded(inputs, roots, keep)
    ensures |keep| + |rest| == |keep0| + |rest0| && |keep| >= |keep0|
    ensures |keep| == |keep0| ==> keep == keep0 && rest == rest0 && Stable(keep, rest)
    ensures forall f :: f in rest ==> f in rest0
  {
    keep, rest := keep0, rest0;
    var i := 0;
    while i < |rest|
      invariant 0 <= i <= |rest|
      invariant Shared(inputs, keep, rest) && AllNeeded(inputs, roots, keep)
      invariant |keep| + |rest| == |keep0| + |rest0| && |keep| >= |keep0|
      invariant |keep| == |keep0| ==> keep == keep0 && rest == rest0 && Stable(keep, rest[..i])
      invariant forall f :: f in rest ==> f in rest0
      decreases |rest| - i
    {
      var found := IsPointedTo(keep, rest[i].v);
      if found {
        MoveFact(inputs, keep, rest, i);
        PointedIsNeeded(inputs, roots, keep, rest[i]);
        keep, rest := keep + [rest[i]], Without(rest, i);
      } else {
        assert rest[..i + 1] == rest[..i] + [rest[i]];
        i := i + 1;
      }
    }
    assert rest[..|rest|] == rest;
  }

  /** No kept fact points to a variable that a remaining fact is about. */
  ghost predicate Stable(keep: FactVec, rest: FactVec) {
    forall f, g :: f in rest && g in keep ==> !PointsAt(g, f.v)
  }

  lemma PointedIsNeeded(fs: FactVec, roots: set<Variable>, keep: FactVec, f: Fact)
    requires AllNeeded(fs, roots, keep) && f in fs && exists g :: g in keep && PointsAt(g, f.v)
    ensures Needed(fs, roots, f)
  {
    var g :| g in keep && PointsAt(g, f.v);
    forall kept: set<Fact> | Closed(fs, roots, kept) ensures f in kept { assert Needed(fs, roots, g); }
  }

  /** What is handed over: the least closed part of the facts, each fact as often as it was there. */
  ghost predicate HandedOver(fs: FactVec, roots: set<Variable>, keep: FactVec) {
    && multiset(keep) <= multiset(fs)
    && Closed(fs, roots, ToSet(keep))
    && (forall f :: f in keep <==> f in fs && Needed(fs, roots, f))
    && forall f :: f in keep ==> multiset(keep)[f] == multiset(fs)[f]
  }

  method KeepVisible(inputs: FactVec, roots: set<Variable>) returns (keep: FactVec)
    ensures HandedOver(inputs, roots, keep)
  {
    var rest;
    keep, rest := MoveRoots(inputs, roots);
    var grown := true;
    while grown
      invariant Shared(inputs, keep, rest) && AllNeeded(inputs, roots, keep)
      invariant forall f :: f in rest ==> f.v !in roots
      invariant !grown ==> Stable(keep, rest)
      decreases |rest|, grown
    {
      var cnt := |keep|;
      keep, rest := MovePointees(inputs, roots, keep, rest);
      grown := |keep| > cnt;
    }
    LeastClosed(inputs, roots, keep, rest);
  }

  /** The facts left behind are not needed, because the kept ones are closed without them. */
  lemma LeastClosed(fs: FactVec, roots: set<Variable>, keep: FactVec, rest: FactVec)
    requires Shared(fs, keep, rest) && AllNeeded(fs, roots, keep) && Stable(keep, rest)
    requires forall f :: f in rest ==> f.v !in roots
    ensures HandedOver(fs, roots, keep)
  {
    forall f ensures f in fs <==> f in keep || f in rest {
      assert f in fs <==> f in multiset(fs);
      assert f in keep <==> f in multiset(keep);
      assert f in rest <==> f in multiset(rest);
    }
    assert Closed(fs, roots, ToSet(keep));
    forall f | f in fs && Needed(fs, roots, f) ensures f in keep { assert f in ToSet(keep); }
    forall f | f in keep ensures multiset(keep)[f] == multiset(fs)[f] {
      if f in rest {
        StillClosed(fs, roots, keep, rest, f);
        assert false;
      }
    }
  }

  /** A fact that was also left behind is not what keeps the others closed. */
  lemma StillClosed(fs: FactVec, roots: set<Variable>, keep: FactVec, rest: FactVec, f: Fact)
    requires Closed(fs, roots, ToSet(keep)) && Stable(keep, rest) && f in rest && f.v !in roots
    ensures Closed(fs, roots, ToSet(keep) - {f})
  {
    forall g | g in ToSet(keep) - {f} ensures !PointsAt(g, f.v) { assert g in keep; }
  }

  /** A chain of `n` facts of `fs`, each about something that the last one may point to, leads from a root
      to `f`. */
  ghost predicate Reached(fs: FactVec, roots: set<Variable>, f: Fact, n: nat)
    decreases n
  {
    f in fs && (f.v in roots || (n > 0 && exists g, p :: Reached(fs, roots, g, n - 1) && g.PointTo? && p in g.pts && SameThing(f.v, p)))
  }

  /** The same variable or array, or parts of one union. */
  predicate SameThing(v: Variable, w: Variable) {
    || (v.Item? && w.Item? && (v.id, v.level, v.size) == (w.id, w.level, w.size))
    || (v.Item? && w == Array(v.id, v.level, v.size)) || (w.Item? && v == Array(w.id, w.level, w.size)) || v == w
    || ((v.Union? || v.Field?) && (w.Union? || w.Field?) && v.union == w.union)
  }

  ghost predicate IsReached(fs: FactVec, roots: set<Variable>, f: Fact) { exists n: nat :: Reached(fs, roots, f, n) }

  ghost function AllReached(fs: FactVec, roots: set<Variable>): set<Fact> {
    set f | f in fs && IsReached(fs, roots, f)
  }

  /** What is handed over is exactly what can be reached from the roots. */
  lemma KeptExactly(fs: FactVec, roots: set<Variable>, keep: FactVec, f: Fact)
    requires HandedOver(fs, roots, keep)
    ensures f in keep <==> IsReached(fs, roots, f)
  {
    if n: nat :| Reached(fs, roots, f, n) { ReachedIsKept(fs, roots, keep, f, n); }
    var all := AllReached(fs, roots);
    forall h | h in fs ensures h.v in roots ==> h in all { assert h.v in roots ==> Reached(fs, roots, h, 0); }
    forall h, g | h in fs && g in all && PointsAt(g, h.v) ensures h in all {
      var n: nat :| Reached(fs, roots, g, n);
      var p :| p in g.pts && h.v.LooseMatch(p);
      assert SameThing(h.v, p);
      assert Reached(fs, roots, h, n + 1);
    }
    assert Closed(fs, roots, all);
    if f in keep {
      assert Needed(fs, roots, f);
      assert f in all;
    }
  }

  lemma {:induction false} ReachedIsKept(fs: FactVec, roots: set<Variable>, keep: FactVec, f: Fact, n: nat)
    requires HandedOver(fs, roots, keep) && Reached(fs, roots, f, n)
    ensures f in keep
    decreases n
  {
    if f.v in roots {
      assert f in ToSet(keep);
    } else {
      var g, p :| Reached(fs, roots, g, n - 1) && g.PointTo? && p in g.pts && SameThing(f.v, p);
      ReachedIsKept(fs, roots, keep, g, n - 1);
      assert g in ToSet(keep) && f.v.LooseMatch(p) && PointsAt(g, f.v);
      assert f in ToSet(keep);
    }
  }

  // ---------- what the callee can see ----------

  /** Every fact about `v` is among the kept ones. */
  ghost predicate Complete(fs: FactVec, keep: FactVec, v: Variable) {
    forall f :: f in fs && f.v == v ==> f in keep
  }

  lemma SamePointees(fs: FactVec, roots: set<Variable>, keep: FactVec, v: Variable)
    requires WellFormed(fs) && HandedOver(fs, roots, keep) && Complete(fs, keep, v)
    ensures ToSet(Pointees(keep, v)) == ToSet(Pointees(fs, v))
    ensures forall p :: p in Pointees(fs, v) && !p.IsSpecial() ==> Complete(fs, keep, p)
  {
    var key := PointTo(v, []);
    var i, j := RelatedIndex(fs, key), RelatedIndex(keep, key);
    RelatedIndexFirst(fs, key);
    RelatedIndexFirst(keep, key);
    if i < |fs| {
      assert fs[i] in fs && fs[i].v == v;
      var k :| 0 <= k < |keep| && keep[k] == fs[i];
      assert Related(keep[k], key);
      assert j <= k;
      assert keep[j] in keep && keep[j] in fs;
      var l :| 0 <= l < |fs| && fs[l] == keep[j];
      assert Related(fs[l], fs[i]) && Related(fs[i], fs[l]);
      assert l == i;
      forall p | p in fs[i].pts && !p.IsSpecial() ensures Complete(fs, keep, p) {
        forall f | f in fs && f.v == p ensures f in keep {
          assert PointsAt(fs[i], f.v);
          assert fs[i] in ToSet(keep);
        }
      }
    }
  }

  ghost predicate SameFrom(fs: FactVec, keep: FactVec, a: seq<Variable>, b: seq<Variable>) {
    ToSet(a) == ToSet(b) && forall v :: v in a && !v.IsSpecial() ==> Complete(fs, keep, v)
  }

  lemma SameStep(fs: FactVec, roots: set<Variable>, keep: FactVec, a: seq<Variable>, b: seq<Variable>)
    requires WellFormed(fs) && HandedOver(fs, roots, keep) && SameFrom(fs, keep, a, b)
    ensures SameFrom(fs, keep, PointeesOfAll(a, fs), PointeesOfAll(b, keep))
  {
    forall v ensures v in a <==> v in b { assert v in ToSet(a) <==> v in ToSet(b); }
    forall p | p in a && !p.IsSpecial()
      ensures forall x :: x in Pointees(fs, p) <==> x in Pointees(keep, p)
      ensures forall x :: x in Pointees(fs, p) && !x.IsSpecial() ==> Complete(fs, keep, x)
    {
      SamePointees(fs, roots, keep, p);
      forall x ensures x in Pointees(fs, p) <==> x in Pointees(keep, p) {
        assert x in ToSet(Pointees(fs, p)) <==> x in ToSet(Pointees(keep, p));
      }
    }
    forall x
      ensures x in PointeesOfAll(a, fs) <==> x in PointeesOfAll(b, keep)
      ensures x in PointeesOfAll(a, fs) && !x.IsSpecial() ==> Complete(fs, keep, x)
    {
      PointeesOfAllMembers(a, fs, [], x);
      PointeesOfAllMembers(b, keep, [], x);
    }
  }

  /** The callee sees what the caller saw: following any chain of dereferences from a global or a
      parameter gives the same pointees in the facts handed over. */
  lemma {:induction false} SameDereferences(fs: FactVec, roots: set<Variable>, keep: FactVec, a: seq<Variable>, b: seq<Variable>, k: nat)
    requires WellFormed(fs) && HandedOver(fs, roots, keep) && SameFrom(fs, keep, a, b)
    ensures ToSet(Deref(a, k, fs)) == ToSet(Deref(b, k, keep))
    decreases k
  {
    if k > 0 {
      SameStep(fs, roots, keep, a, b);
      SameDereferences(fs, roots, keep, PointeesOfAll(a, fs), PointeesOfAll(b, keep), k - 1);
    }
  }

  lemma RootsAreComplete(fs: FactVec, roots: set<Variable>, keep: FactVec, v: Variable, k: nat)
    requires WellFormed(fs) && HandedOver(fs, roots, keep) && v in roots
    ensures ToSet(Deref([v], k, fs)) == ToSet(Deref([v], k, keep))
  {
    assert Complete(fs, keep, v) by {
      forall f | f in fs && f.v == v ensures f in keep { assert f in ToSet(keep); }
    }
    SameDereferences(fs, roots, keep, [v], [v], k);
  }

  // ---------- parameters ----------

  /** The facts after the arguments have been assigned to the parameters, one after the other. */
  function WithParams(params: seq<Variable>, values: seq<Expr>, fs: FactVec): FactVec
    requires |params| == |values|
    decreases |params|
  {
    if params == [] then fs
    else WithParams(params[1..], values[1..], AssignedFacts(params[0], 0, values[0], fs))
  }

  lemma {:induction false} WithParamsWellFormed(params: seq<Variable>, values: seq<Expr>, fs: FactVec)
    requires |params| == |values| && WellFormed(fs)
    ensures WellFormed(WithParams(params, values, fs))
    decreases |params|
  {
    if params != [] {
      AssignedWellFormed(params[0], 0, values[0], fs);
      WithParamsWellFormed(params[1..], values[1..], AssignedFacts(params[0], 0, values[0], fs));
    }
  }

  /** The value of a pointer argument `e` comes from the variable `p`. */
  predicate TakenFrom(e: Expr, p: Variable) {
    match e
    case Read(v, _) => v.Coll() == p
    case Assign(_, _, rhs, _) => TakenFrom(rhs, p)
    case Comma(_, r) => TakenFrom(r, p)
    case _ => false
  }

  /** The parameters are distinct scalars, and neither an argument nor a fact at hand refers to one. */
  ghost predicate Fresh(params: seq<Variable>, values: seq<Expr>, fs: FactVec) {
    && NoDup(params)
    && (forall p :: p in params ==> p.Plain? && forall e :: e in values ==> !TakenFrom(e, p))
    && forall p, u :: p in params ==> p !in Pointees(fs, u)
  }

  predicate IsPassed(p: Variable, e: Expr) { p.IsPointer() && HasPointees(e) }

  /** Parameter number `i` may point to exactly what its own argument may point to in the facts `fs`
      at the call. */
  ghost predicate OwnArgument(params: seq<Variable>, values: seq<Expr>, fs: FactVec, r: FactVec, i: nat)
    requires i < |params| == |values|
  {
    forall x :: x in Pointees(r, params[i]) <==>
      if IsPassed(params[i], values[i]) then MayPoint(values[i], x, fs) else x in Pointees(fs, params[i])
  }

  /** Every parameter has its own argument, and all other variables keep their pointees. */
  ghost predicate ArgumentsPassed(params: seq<Variable>, values: seq<Expr>, fs: FactVec, r: FactVec)
    requires |params| == |values|
  {
    && (forall i :: 0 <= i < |params| ==> OwnArgument(params, values, fs, r, i))
    && forall u :: u !in params ==> ToSet(Pointees(r, u)) == ToSet(Pointees(fs, u))
  }

  /** A chain does not notice changes at a variable that nothing points to. */
  lemma {:induction false} ChainElsewhere(v: Variable, x: Variable, n: nat, fs: FactVec, gs: FactVec, p: Variable)
    requires v != p && (forall u :: p !in Pointees(fs, u)) && forall u :: u != p ==> ToSet(Pointees(gs, u)) == ToSet(Pointees(fs, u))
    ensures Chain(v, x, n, gs) <==> Chain(v, x, n, fs)
    decreases n
  {
    if n > 0 {
      assert ToSet(Pointees(gs, v)) == ToSet(Pointees(fs, v));
      forall w ensures w in Pointees(gs, v) <==> w in Pointees(fs, v) {
        InToSet(Pointees(gs, v), w);
        InToSet(Pointees(fs, v), w);
      }
      forall w | w in Pointees(fs, v) ensures Chain(w, x, n - 1, gs) <==> Chain(w, x, n - 1, fs) {
        ChainElsewhere(w, x, n - 1, fs, gs, p);
      }
    }
  }

  lemma {:induction false} MayPointElsewhere(e: Expr, x: Variable, fs: FactVec, gs: FactVec, p: Variable)
    requires !TakenFrom(e, p) && (forall u :: p !in Pointees(fs, u)) && forall u :: u != p ==> ToSet(Pointees(gs, u)) == ToSet(Pointees(fs, u))
    ensures MayPoint(e, x, gs) <==> MayPoint(e, x, fs)
  {
    match e
    case Read(v, k) => if k >= 0 { ChainElsewhere(v.Coll(), x, k + 1, fs, gs, p); }
    case Assign(_, _, rhs, _) => MayPointElsewhere(rhs, x, fs, gs, p);
    case Comma(_, r) => MayPointElsewhere(r, x, fs, gs, p);
    case _ =>
  }

  lemma {:induction false} ChainEndsApart(v: Variable, p: Variable, n: nat, fs: FactVec)
    requires Chain(v, p, n, fs) && forall u :: p !in Pointees(fs, u)
    ensures n == 0 && v == p
    decreases n
  {
    if n > 0 {
      var w :| w in Pointees(fs, v) && Chain(w, p, n - 1, fs);
      ChainEndsApart(w, p, n - 1, fs);
    }
  }

  /** An argument that does not refer to a parameter cannot point to it. */
  lemma {:induction false} MayNotPoint(e: Expr, p: Variable, fs: FactVec)
    requires !TakenFrom(e, p) && !p.IsSpecial() && forall u :: p !in Pointees(fs, u)
    ensures !MayPoint(e, p, fs)
  {
    match e
    case Read(v, k) => if k >= 0 && Chain(v.Coll(), p, k + 1, fs) { ChainEndsApart(v.Coll(), p, k + 1, fs); }
    case Assign(_, _, rhs, _) => MayNotPoint(rhs, p, fs);
    case Comma(_, r) => MayNotPoint(r, p, fs);
    case _ =>
  }

  /** The first parameter: exactly its argument's pointees, and everything else as before. */
  lemma FirstParam(p: Variable, e: Expr, fs: FactVec)
    requires WellFormed(fs) && p.Plain?
    ensures WellFormed(AssignedFacts(p, 0, e, fs))
    ensures forall x :: x in Pointees(AssignedFacts(p, 0, e, fs), p) <==> if IsPassed(p, e) then MayPoint(e, x, fs) else x in Pointees(fs, p)
    ensures forall u :: u != p ==> ToSet(Pointees(AssignedFacts(p, 0, e, fs), u)) == ToSet(Pointees(fs, u))
  {
    AssignedWellFormed(p, 0, e, fs);
    if IsPassed(p, e) {
      assert Deref([p.Coll()], 0, fs) == [p];
      StrongUpdateExactly(p, 0, e, fs, p);
    } else {
      NoUpdate(p, 0, e, fs);
    }
  }

  lemma StillFresh(params: seq<Variable>, values: seq<Expr>, fs: FactVec, gs: FactVec)
    requires |params| == |values| > 0 && Fresh(params, values, fs)
    requires forall x :: x in Pointees(gs, params[0]) <==> if IsPassed(params[0], values[0]) then MayPoint(values[0], x, fs) else x in Pointees(fs, params[0])
    requires forall u :: u != params[0] ==> ToSet(Pointees(gs, u)) == ToSet(Pointees(fs, u))
    ensures Fresh(params[1..], values[1..], gs)
  {
    var ps, vs := params[1..], values[1..];
    forall p | p in ps ensures p in params && p.Plain? {}
    forall p, e | p in ps && e in vs ensures !TakenFrom(e, p) { assert p in params && e in values; }
    forall p, u | p in ps ensures p !in Pointees(gs, u) {
      assert p in params && values[0] in values;
      if u == params[0] {
        MayNotPoint(values[0], p, fs);
      } else {
        InToSet(Pointees(gs, u), p);
        InToSet(Pointees(fs, u), p);
      }
    }
  }

  /** Assigning one parameter after the other gives each its own argument. */
  lemma {:induction false} ParamsExactly(params: seq<Variable>, values: seq<Expr>, fs: FactVec)
    requires |params| == |values| && WellFormed(fs) && Fresh(params, values, fs)
    ensures ArgumentsPassed(params, values, fs, WithParams(params, values, fs))
    decreases |params|
  {
    if params != [] {
      var p, gs := params[0], AssignedFacts(params[0], 0, values[0], fs);
      var r := WithParams(params, values, fs);
      FirstParam(p, values[0], fs);
      StillFresh(params, values, fs, gs);
      ParamsExactly(params[1..], values[1..], gs);
      forall i | 0 <= i < |params| ensures OwnArgument(params, values, fs, r, i) {
        PassedLater(params, values, fs, gs, r, i);
      }
      forall u | u !in params ensures ToSet(Pointees(r, u)) == ToSet(Pointees(fs, u)) {
        assert u != p && u !in params[1..];
      }
    }
  }

  lemma PassedLater(params: seq<Variable>, values: seq<Expr>, fs: FactVec, gs: FactVec, r: FactVec, i: nat)
    requires i < |params| == |values| && Fresh(params, values, fs)
    requires forall x :: x in Pointees(gs, params[0]) <==> if IsPassed(params[0], values[0]) then MayPoint(values[0], x, fs) else x in Pointees(fs, params[0])
    requires forall u :: u != params[0] ==> ToSet(Pointees(gs, u)) == ToSet(Pointees(fs, u))
    requires ArgumentsPassed(params[1..], values[1..], gs, r)
    ensures OwnArgument(params, values, fs, r, i)
  {
    var p := params[0];
    assert p in params;
    if i == 0 {
      forall x ensures x in Pointees(r, p) <==> x in Pointees(gs, p) {
        assert p !in params[1..];
        InToSet(Pointees(r, p), x);
        InToSet(Pointees(gs, p), x);
      }
    } else {
      assert OwnArgument(params[1..], values[1..], gs, r, i - 1);
      assert values[i] in values && params[i] != p;
      forall x ensures MayPoint(values[i], x, gs) <==> MayPoint(values[i], x, fs) { MayPointElsewhere(values[i], x, fs, gs, p); }
      forall x ensures x in Pointees(gs, params[i]) <==> x in Pointees(fs, params[i]) {
        InToSet(Pointees(gs, params[i]), x);
        InToSet(Pointees(fs, params[i]), x);
      }
    }
  }

  method AddParamFacts(params: seq<Variable>, values: seq<Expr>, facts: FactVec) returns (r: FactVec)
    requires |params| == |values|
    ensures r == WithParams(params, values, facts)
    ensures WellFormed(facts) && Fresh(params, values, facts) ==> WellFormed(r) && ArgumentsPassed(params, values, facts, r)
  {
    r := facts;
    var i := 0;
    while i < |params|
      invariant 0 <= i <= |params|
      invariant WithParams(params, values, facts) == WithParams(params[i..], values[i..], r)
    {
      assert params[i..][1..] == params[i + 1..] && values[i..][1..] == values[i + 1..];
      r := UpdateFactForAssign(params[i], 0, values[i], r);
      i := i + 1;
    }
    if WellFormed(facts) && Fresh(params, values, facts) {
      ParamsExactly(params, values, facts);
      WithParamsWellFormed(params, values, facts);
    }
  }

  /** The facts `keep` are what a callee sees of some facts in which every parameter has its argument. */
  ghost predicate Enters(params: seq<Variable>, values: seq<Expr>, globals: set<Variable>, fs: FactVec, keep: FactVec)
    requires |params| == |values|
  {
    exists facts :: WellFormed(facts) && ArgumentsPassed(params, values, fs, facts) && HandedOver(facts, globals + ToSet(params), keep)
  }

  /** `FactMgr::caller_to_callee_handover`; the roots are the globals and the parameters. */
  method CallerToCalleeHandover(params: seq<Variable>, values: seq<Expr>, globals: set<Variable>, inputs: FactVec) returns (keep: FactVec)
    requires |params| == |values|
    ensures HandedOver(WithParams(params, values, inputs), globals + ToSet(params), keep)
    ensures WellFormed(inputs) && Fresh(params, values, inputs) ==> Enters(params, values, globals, inputs, keep)
  {
    var facts := AddParamFacts(params, values, inputs);
    keep := KeepVisible(facts, globals + set v | v in params);
    assert (set v | v in params) == ToSet(params);
  }

  /** In the facts handed over, every parameter still has exactly the pointees of its own argument, and
      every global those it had at the call. */
  lemma CalleeSeesArguments(params: seq<Variable>, values: seq<Expr>, globals: set<Variable>, fs: FactVec, keep: FactVec)
    requires |params| == |values| && Enters(params, values, globals, fs, keep) && forall v :: v in params || v in globals ==> !v.IsSpecial()
    ensures forall i :: 0 <= i < |params| ==> OwnArgument(params, values, fs, keep, i)
    ensures forall g :: g in globals && g !in params ==> ToSet(Pointees(keep, g)) == ToSet(Pointees(fs, g))
  {
    var facts :| WellFormed(facts) && ArgumentsPassed(params, values, fs, facts) && HandedOver(facts, globals + ToSet(params), keep);
    forall v | v in globals || v in params ensures ToSet(Pointees(keep, v)) == ToSet(Pointees(facts, v)) {
      RootsAreComplete(facts, globals + ToSet(params), keep, v, 1);
      OneStep(v, facts);
      OneStep(v, keep);
    }
    forall i | 0 <= i < |params| ensures OwnArgument(params, values, fs, keep, i) {
      assert OwnArgument(params, values, fs, facts, i);
      assert params[i] in params;
      forall x ensures x in Pointees(keep, params[i]) <==> x in Pointees(facts, params[i]) {
        InToSet(Pointees(keep, params[i]), x);
        InToSet(Pointees(facts, params[i]), x);
      }
    }
  }

  lemma OneStep(v: Variable, fs: FactVec)
    requires !v.IsSpecial()
    ensures ToSet(Deref([v], 1, fs)) == ToSet(Pointees(fs, v))
  {
    DerefOfOne(v, 1, fs);
    forall x ensures Chain(v, x, 1, fs) <==> x in Pointees(fs, v) { OneLink(v, x, fs); }
  }

  // ---------- the store of the callee ----------

  /** `t` is the store `s` with each parameter initialised to the value of its own argument. */
  ghost predicate Called(params: seq<Variable>, values: seq<Expr>, s: Store, t: Store) {
    && |params| == |values|
    && t.Keys == s.Keys + ToSet(params)
    && (forall c :: c in s && c !in params ==> t[c] == s[c])
    && forall i :: 0 <= i < |params| ==> ArgumentValue(params[i], values[i], s, t[params[i]])
  }

  /** `x` is a value that `e` can have in the store `s`, and one of the type of `p`. */
  ghost predicate ArgumentValue(p: Variable, e: Expr, s: Store, x: Value) {
    && WellTyped(e, s.Keys) && LevelOf(e) == p.Level() && HasType(x, p.Level(), s.Keys)
    && (p.IsPointer() ==> Recoverable(e, s, x) && HasPointees(e))
  }

  /** If the facts cover the store of the caller, the facts with the arguments passed cover the store
      in which the callee starts. */
  lemma CalleeCovered(params: seq<Variable>, values: seq<Expr>, fs: FactVec, r: FactVec, s: Store, t: Store)
    requires |params| == |values| && ArgumentsPassed(params, values, fs, r) && Called(params, values, s, t)
    requires StoreOk(s) && Covers(fs, s) && forall p :: p in params ==> p.Plain?
    ensures StoreOk(t) && Covers(r, t)
  {
    forall c | c in t ensures CellOk(t, c) && (c.IsPointer() ==> CoveredAt(r, t, c)) {
      if c in params {
        var i :| 0 <= i < |params| && params[i] == c;
        ParamCovered(params, values, fs, r, s, t, i);
      } else {
        assert CellOk(s, c);
        CellFacts(s, c);
        if c.IsPointer() {
          assert CoveredAt(fs, s, c) && c.Coll() !in params;
          InToSet(Pointees(r, c.Coll()), t[c].target.Coll());
          InToSet(Pointees(fs, c.Coll()), t[c].target.Coll());
        }
      }
    }
  }

  lemma ParamCovered(params: seq<Variable>, values: seq<Expr>, fs: FactVec, r: FactVec, s: Store, t: Store, i: nat)
    requires i < |params| == |values| && OwnArgument(params, values, fs, r, i) && Called(params, values, s, t)
    requires StoreOk(s) && Covers(fs, s) && params[i].Plain?
    ensures params[i] in t && CellOk(t, params[i]) && (params[i].IsPointer() ==> CoveredAt(r, t, params[i]))
  {
    var p, e := params[i], values[i];
    assert p in ToSet(params) && ArgumentValue(p, e, s, t[p]);
    if p.IsPointer() {
      RecoverableCovered(e, fs, s, t[p]);
      RhsExactly(e, fs);
    }
  }

  /** Wherever the callee gets from a parameter or a global, the facts handed over list it. */
  lemma CalleeChaseCovered(params: seq<Variable>, values: seq<Expr>, globals: set<Variable>, fs: FactVec, keep: FactVec,
                           s: Store, t: Store, v: Variable, k: nat)
    requires |params| == |values| && Enters(params, values, globals, fs, keep) && Called(params, values, s, t)
    requires StoreOk(s) && Covers(fs, s) && forall p :: p in params ==> p.Plain?
    requires v in t && (v in params || v.Coll() in globals) && k <= v.Level() && Chase(t, v, k).Some?
    ensures Chase(t, v, k).value.Coll() in Deref([v.Coll()], k, keep)
  {
    var facts :| WellFormed(facts) && ArgumentsPassed(params, values, fs, facts) && HandedOver(facts, globals + ToSet(params), keep);
    CalleeCovered(params, values, fs, facts, s, t);
    ChaseCovered(facts, t, v, k, [v.Coll()]);
    RootsAreComplete(facts, globals + ToSet(params), keep, v.Coll(), k);
    InToSet(Deref([v.Coll()], k, facts), Chase(t, v, k).value.Coll());
    InToSet(Deref([v.Coll()], k, keep), Chase(t, v, k).value.Coll());
  }

  /** If an argument is itself a parameter, the order counts: `a` and `b` swapped, and both end up with
      what `b` pointed to. */
  lemma SwappedArguments(a: Variable, b: Variable, x: Variable, y: Variable, z: Variable)
    requires a == Plain(0, 1) && b == Plain(1, 1) && x == Plain(2, 0) && y == Plain(3, 0)
    ensures var r := WithParams([a, b], [Read(b, 0), Read(a, 0)], [PointTo(a, [x]), PointTo(b, [y])]);
      (z in Pointees(r, a) <==> z == y) && (z in Pointees(r, b) <==> z == y)
  {
    var fs := [PointTo(a, [x]), PointTo(b, [y])];
    var gs := AssignedFacts(a, 0, Read(b, 0), fs);
    var hs := AssignedFacts(b, 0, Read(a, 0), gs);
    assert [a, b][1..] == [b] && [b][1..] == [] && [Read(b, 0), Read(a, 0)][1..] == [Read(a, 0)];
    assert WithParams([], [], hs) == hs;
    assert WithParams([b], [Read(a, 0)], gs) == WithParams([], [], hs);
    assert RelatedIndex([PointTo(b, [y])], PointTo(b, [])) == 0 && fs[1..] == [PointTo(b, [y])];
    assert RelatedIndex(fs, PointTo(b, [])) == 1;
    FirstParam(a, Read(b, 0), fs);
    FirstParam(b, Read(a, 0), gs);
    OneLink(b, z, fs);
    OneLink(a, z, gs);
    InToSet(Pointees(hs, a), z);
    InToSet(Pointees(gs, a), z);
  }

  lemma OneLink(v: Variable, x: Variable, fs: FactVec)
    requires !v.IsSpecial()
    ensures Chain(v, x, 1, fs) <==> x in Pointees(fs, v)
  {
    if x in Pointees(fs, v) { assert Chain(x, x, 0, fs); }
  }
}
