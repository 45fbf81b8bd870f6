/** Exactly what the union-write facts say after each step. */
module UnionPrecision {
  // Which member the facts name for every union: the only one that can have been written last, or
  // none if several can.

  import opened Collections
  import opened Variables
  import opened Facts
  import opened UnionFacts

  /** `r` is what is known if the last-written member is one of `fids`: that member if there is only
      one, BOTTOM if there are several. */
  ghost predicate Known(r: Option<int>, fids: set<int>) {
    && (r.None? <==> fids == {})
    && forall x, y :: x in fids && y in fids ==> r == Some(if x == y && fids == {x} then x else BOTTOM)
  }

  lemma KnownMeaning(r: Option<int>, fids: set<int>, x: int)
    requires Known(r, fids) && x in fids
    ensures (forall y :: y in fids ==> y == x) ==> r == Some(x)
    ensures (exists y :: y in fids && y != x) ==> r == Some(BOTTOM)
  {
    if forall y :: y in fids ==> y == x { assert fids == {x}; }
  }

  function Before(fs: FactVec, u: Variable): set<int> {
    match Lookup(fs, u) case None => {} case Some(fid) => {fid}
  }

  function About(ns: FactVec, u: Variable): set<int> {
    set f | f in ns && f.UnionWrite? && f.v == u :: f.fid
  }

  lemma OneBefore(fs: FactVec, u: Variable)
    ensures Known(Lookup(fs, u), Before(fs, u))
  {}

  /** One more candidate. */
  lemma OneMore(r: Option<int>, fids: set<int>, x: int)
    requires Known(r, fids)
    ensures Known(Some(if r.None? then x else JoinFid(x, r.value)), fids + {x})
  {
    var q, more := Some(if r.None? then x else JoinFid(x, r.value)), fids + {x};
    assert x in more;
    if fids == {} {
      assert more == {x};
    } else {
      var w := AnyOf(fids);
      assert r == Some(if fids == {w} then w else BOTTOM);
      assert w in more;
      if fids == {w} && w == x { assert more == {x}; }
      forall y, z | y in more && z in more ensures q == Some(if y == z && more == {y} then y else BOTTOM) {
        if more == {y} { assert x == y && w == y && fids == {w}; }
      }
    }
  }

  lemma {:induction false} MergedAllFrom(fs: FactVec, ns: FactVec, u: Variable, fids: set<int>)
    requires OnlyUnions(ns) && Known(Lookup(fs, u), fids)
    ensures Known(Lookup(MergedAll(fs, ns), u), fids + About(ns, u))
    decreases |ns|
  {
    if ns == [] {
      assert fids + About(ns, u) == fids;
    } else {
      var n := ns[0];
      assert n in ns && ns == [n] + ns[1..];
      MergedLookup(fs, n, u);
      var more := if n.v == u then fids + {n.fid} else fids;
      if n.v == u { OneMore(Lookup(fs, u), fids, n.fid); }
      MergedAllFrom(Merged(fs, n), ns[1..], u, more);
      assert fids + About(ns, u) == more + About(ns[1..], u);
    }
  }

  /** Where facts are merged, a union is known to have what it had or what any new fact says. */
  lemma MergedAllKnown(fs: FactVec, ns: FactVec, u: Variable)
    requires OnlyUnions(ns)
    ensures Known(Lookup(MergedAll(fs, ns), u), Before(fs, u) + About(ns, u))
  {
    OneBefore(fs, u);
    MergedAllFrom(fs, ns, u, Before(fs, u));
  }

  /** A write to the one member `t`: its union is known to have that member, and no other changes. */
  lemma MemberWrittenExactly(t: Variable, fs: FactVec, u: Variable)
    requires t.Field?
    ensures Lookup(Applied(fs, FieldFacts([t]), 1), u) == if u == Union(t.union) then Some(t.fid) else Lookup(fs, u)
  {
    var n := UnionWrite(Union(t.union), t.fid);
    assert [t][1..] == [] && FieldFacts([t]) == [n] + FieldFacts([]);
    RenewedLookup(fs, n, u);
  }

  /** The members of `u` among the possible targets. */
  function MembersOf(lvars: seq<Variable>, u: Variable): set<int> {
    set v | v in lvars && v.Field? && Union(v.union) == u :: v.fid
  }

  /** A write to one of several members: each union may have been written to or not. */
  lemma SomeMemberWrittenExactly(lvars: seq<Variable>, fs: FactVec, u: Variable)
    requires |lvars| != 1
    ensures Known(Lookup(Applied(fs, FieldFacts(lvars), |lvars|), u), Before(fs, u) + MembersOf(lvars, u))
  {
    var ns := FieldFacts(lvars);
    forall f | f in ns ensures f.UnionWrite? { FieldFactsElements(lvars, f); }
    forall x ensures x in About(ns, u) <==> x in MembersOf(lvars, u) {
      FieldFactsElements(lvars, UnionWrite(u, x));
      if f :| f in ns && f.UnionWrite? && f.v == u && f.fid == x { assert f == UnionWrite(u, x); }
      if v :| v in lvars && v.Field? && Union(v.union) == u && v.fid == x { assert UnionWrite(u, x) in ns; }
    }
    assert About(ns, u) == MembersOf(lvars, u);
    MergedAllKnown(fs, ns, u);
    assert ns == [] ==> MergedAll(fs, ns) == fs;
  }

  /** The members that the facts name for the unions `vars`. */
  function Named(fs: FactVec, vars: seq<Variable>): set<int> {
    set v | v in vars && Lookup(fs, v).Some? :: Lookup(fs, v).value
  }

  lemma {:induction false} JoinVarsFrom(fs: FactVec, vars: seq<Variable>, acc: Option<int>, fids: set<int>)
    requires Known(acc, fids)
    ensures Known(JoinVars(fs, vars, acc), fids + Named(fs, vars))
    decreases |vars|
  {
    if vars == [] {
      assert fids + Named(fs, vars) == fids;
    } else {
      var v := vars[0];
      assert vars == [v] + vars[1..];
      match Lookup(fs, v)
      case None =>
        JoinVarsFrom(fs, vars[1..], acc, fids);
        assert fids + Named(fs, vars) == fids + Named(fs, vars[1..]);
      case Some(fid) =>
        OneMore(acc, fids, fid);
        JoinVarsFrom(fs, vars[1..], if acc.None? then Some(fid) else Some(JoinFid(acc.value, fid)), fids + {fid});
        assert fids + Named(fs, vars) == fids + {fid} + Named(fs, vars[1..]);
    }
  }

  /** The members that a right-hand side may carry: the first of a constant, those of what is read, and
      those of the inner right-hand side of a nested assignment or a comma. */
  function Carried(e: UnionExpr, fs: FactVec): set<int> {
    match e
    case Constant => {0}
    case Var(rvars, _) => Named(fs, rvars)
    case Assign(_, _, rhs) => Carried(rhs, fs)
    case Comma(_, r) => Carried(r, fs)
  }

  lemma {:induction false} RhsKnown(e: UnionExpr, fs: FactVec)
    ensures Known(RhsFid(e, fs), Carried(e, fs))
  {
    match e
    case Constant =>
    case Var(rvars, _) =>
      JoinVarsFrom(fs, rvars, None, {});
      assert {} + Named(fs, rvars) == Named(fs, rvars);
    case Assign(_, _, rhs) => RhsKnown(rhs, fs);
    case Comma(_, r) => RhsKnown(r, fs);
  }

  /** An assignment to the one union `t`: it is known to have what the right-hand side carries after that
      has been visited, and no other union changes. */
  lemma UnionAssignedExactly(t: Variable, target: Variable, rhs: UnionExpr, fs: FactVec, u: Variable)
    requires Carried(rhs, After(rhs, fs)) != {}
    ensures var gs := After(rhs, fs);
      if u == t then Known(Lookup(After(Assign([t], target, rhs), fs), u), Carried(rhs, gs))
      else Lookup(After(Assign([t], target, rhs), fs), u) == Lookup(gs, u)
  {
    var gs := After(rhs, fs);
    RhsKnown(rhs, gs);
    var n := UnionWrite(t, RhsFid(rhs, gs).value);
    assert [t][1..] == [] && MakeFacts([t], n.fid) == [n] + MakeFacts([], n.fid);
    RenewedLookup(gs, n, u);
  }

  /** To one of several unions: each may have what it had, or what is known of the right-hand side. */
  lemma SomeUnionAssignedExactly(lvars: seq<Variable>, target: Variable, rhs: UnionExpr, fs: FactVec, u: Variable)
    requires |lvars| != 1
    ensures var gs := After(rhs, fs);
      Known(Lookup(After(Assign(lvars, target, rhs), fs), u),
            Before(gs, u) + if u in lvars && RhsFid(rhs, gs).Some? then {RhsFid(rhs, gs).value} else {})
  {
    var gs := After(rhs, fs);
    if RhsFid(rhs, gs).Some? {
      var fid := RhsFid(rhs, gs).value;
      var ns := MakeFacts(lvars, fid);
      forall f | f in ns ensures f.UnionWrite? { MakeFactsElements(lvars, fid, f); }
      forall x ensures x in About(ns, u) <==> u in lvars && x == fid {
        MakeFactsElements(lvars, fid, UnionWrite(u, x));
        if f :| f in ns && f.UnionWrite? && f.v == u && f.fid == x { assert f == UnionWrite(u, x); }
      }
      assert About(ns, u) == if u in lvars then {fid} else {};
      MergedAllKnown(gs, ns, u);
      assert ns == [] ==> MergedAll(gs, ns) == gs;
    } else {
      OneBefore(gs, u);
      assert Before(gs, u) + {} == Before(gs, u);
    }
  }

  /** A member may be read exactly if the facts name it. */
  lemma ReadableExactly(v: Variable, fs: FactVec)
    requires v.Field?
    ensures !NonReadable(v, fs) <==> Lookup(fs, Union(v.union)) == Some(v.fid)
  {
    RelatedIndexSame(fs, UnionWrite(Union(v.union), v.fid), UnionWrite(Union(v.union), TOP));
  }
}
