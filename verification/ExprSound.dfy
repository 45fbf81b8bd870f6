/** Soundness of expressions. */
module ExprSound {
  // Soundness of the visit of an expression: whatever the analysis accepts has defined behaviour
  // from every store the facts cover, in every evaluation order, with the same result.

  import opened Collections
  import opened Variables
  import opened Facts
  import opened PointsTo
  import opened Expressions
  import opened CGContexts

  /** The facts describe the store: what a pointer holds is among the pointees recorded for it. */
  ghost predicate Covers(fs: FactVec, s: Store) {
    forall c {:trigger CoveredAt(fs, s, c)} :: c in s && c.IsPointer() ==> CoveredAt(fs, s, c)
  }

  predicate CoveredAt(fs: FactVec, s: Store, c: Variable)
    requires c in s
  {
    Has(fs, c.Coll()) && s[c].Ptr? && s[c].target.Coll() in Pointees(fs, c.Coll())
  }

  /** The context after a visit extends the one before. */
  ghost predicate Extends(c: Context, d: Context) {
    && d.context == c.context && d.noWrite == c.noWrite
    && c.accum.readVars <= d.accum.readVars
    && c.accum.writeVars <= d.accum.writeVars
    && c.accum.lhsWriteVars <= d.accum.lhsWriteVars
  }

  ghost predicate ReadOk(x: Variable, around: Effect, acc: Effect) {
    x.Coll() in acc.readVars && x.Coll() !in around.writeVars
  }

  ghost predicate WriteOk(x: Variable, around: Effect, acc: Effect) {
    x.Coll() in acc.writeVars && x.Coll() !in around.writeVars && x.Coll() !in around.readVars
  }

  /** Every access is recorded in the accumulated effect and clashes with no effect of the
      surroundings. */
  ghost predicate Accounted(fp: Footprint, c: Context, d: Context) {
    && (forall x :: x in fp.rd ==> ReadOk(x, c.context, d.accum))
    && (forall x :: x in fp.wr ==> WriteOk(x, c.context, d.accum) && x.Coll() in d.accum.lhsWriteVars)
  }

  // ---------- dereference chains ----------

  lemma {:induction false} CheckEachOk(vs: seq<Variable>, write: bool, fs: FactVec, c: Context, x: Variable)
    requires CheckEach(vs, write, fs, c).Some?
    ensures var d := CheckEach(vs, write, fs, c).value;
      && Extends(c, d)
      && d.stm.readVars >= c.stm.readVars
      && (x in vs && !x.IsSpecial() ==>
            if write then WriteOk(x, c.context, d.accum)
            else ReadOk(x, c.context, d.accum) && (x.Coll().IsPointer() ==> !MayBeDead(fs, x.Coll())))
    decreases |vs|
  {
    if vs != [] {
      var r := if vs[0].IsSpecial() then Some(c)
               else if write then CheckWrite(vs[0], fs, c) else CheckRead(vs[0], fs, c);
      CheckEachOk(vs[1..], write, fs, r.value, x);
      assert vs == [vs[0]] + vs[1..];
    }
  }

  lemma CellFacts(s: Store, c: Variable)
    requires StoreOk(s) && c in s
    ensures c.IsCell() && HasType(s[c], c.Level(), s.Keys)
    ensures !c.IsSpecial() && !c.Coll().IsSpecial() && c.Coll().Coll() == c.Coll() && c.Coll().Level() == c.Level()
  {
    assert CellOk(s, c);
  }

  lemma TargetCovered(fs: FactVec, s: Store, c: Variable, ptrs: seq<Variable>)
    requires StoreOk(s) && Covers(fs, s) && c in s && c.IsPointer() && c.Coll() in ptrs
    ensures s[c].Ptr? && s[c].target.Coll() in PointeesOfAll(ptrs, fs)
  {
    CellFacts(s, c);
    assert CoveredAt(fs, s, c);
    PointeesOfAllMembers(ptrs, fs, [], s[c].target.Coll());
  }

  lemma {:induction false} ChaseCovered(fs: FactVec, s: Store, c: Variable, k: nat, ptrs: seq<Variable>)
    requires StoreOk(s) && Covers(fs, s) && c in s && c.Coll() in ptrs
    requires Chase(s, c, k).Some? && k <= c.Level()
    ensures var d := Chase(s, c, k).value;
      d in s && d.Level() == c.Level() - k && d.Coll() in Deref(ptrs, k, fs)
    decreases k
  {
    if k > 0 {
      TargetCovered(fs, s, c, ptrs);
      CellFacts(s, c);
      CellFacts(s, s[c].target);
      ChaseCovered(fs, s, s[c].target, k - 1, PointeesOfAll(ptrs, fs));
    }
  }

  lemma PointeeIsLive(fs: FactVec, s: Store, c: Variable, ptrs: seq<Variable>)
    requires StoreOk(s) && Covers(fs, s) && c in s && c.IsPointer() && c.Coll() in ptrs
    requires !BadPointees(PointeesOfAll(ptrs, fs))
    ensures s[c].Ptr? && s[c].target in s && s[c].target.Level() == c.Level() - 1
    ensures s[c].target.Coll() in PointeesOfAll(ptrs, fs)
  {
    TargetCovered(fs, s, c, ptrs);
    CellFacts(s, c);
  }

  /** The last location of a chain has been checked for the access that is made to it. */
  ghost predicate LastOk(d: Variable, write: bool, fs: FactVec, around: Effect, acc: Effect) {
    if write then WriteOk(d, around, acc)
    else ReadOk(d, around, acc) && (d.IsPointer() ==> !MayBeDead(fs, d.Coll()))
  }

  /** All locations strictly inside a chain of `k` dereferences from `c` are readable. */
  ghost predicate InnerOk(s: Store, c: Variable, k: nat, around: Effect, acc: Effect)
    decreases k
  {
    k > 1 ==>
      c in s && s[c].Ptr? && s[c].target in s &&
      ReadOk(s[c].target, around, acc) && InnerOk(s, s[c].target, k - 1, around, acc)
  }

  lemma {:induction false} InnerOkPath(s: Store, c: Variable, k: nat, around: Effect, acc: Effect, p: Variable)
    requires InnerOk(s, c, k, around, acc) && p in Path(s, c, k)
    ensures p == c || ReadOk(p, around, acc)
    decreases k
  {
    if p != c && k > 1 { InnerOkPath(s, s[c].target, k - 1, around, acc, p); }
  }

  /** One accepted level of dereference. */
  lemma StepOk(fs: FactVec, s: Store, c: Variable, k: nat, ptrs: seq<Variable>, write: bool, x: Context, z: Context)
    requires StoreOk(s) && Covers(fs, s) && c in s && c.Coll() in ptrs && 0 < k <= c.Level()
    requires !BadPointees(PointeesOfAll(ptrs, fs)) && CheckEach(PointeesOfAll(ptrs, fs), write && k == 1, fs, x) == Some(z)
    ensures s[c].Ptr? && s[c].target in s && s[c].target.Level() == c.Level() - 1
    ensures s[c].target.Coll() in PointeesOfAll(ptrs, fs)
    ensures Extends(x, z) && LastOk(s[c].target, write && k == 1, fs, x.context, z.accum)
  {
    PointeeIsLive(fs, s, c, ptrs);
    var t := s[c].target;
    CellFacts(s, t);
    CheckEachOk(PointeesOfAll(ptrs, fs), write && k == 1, fs, x, t.Coll());
  }

  /** An accepted chain of dereferences meets only live storage. */
  lemma {:induction false} FollowOk(fs: FactVec, s: Store, c: Variable, k: nat, ptrs: seq<Variable>, write: bool, x: Context, y: Context)
    requires StoreOk(s) && Covers(fs, s) && c in s && c.Coll() in ptrs && 0 < k <= c.Level()
    requires Follow(ptrs, k, write, fs, x) == Some(y)
    ensures Extends(x, y)
    ensures InnerOk(s, c, k, x.context, y.accum)
    ensures Chase(s, c, k).Some? && LastOk(Chase(s, c, k).value, write, fs, x.context, y.accum)
    decreases k
  {
    var next := PointeesOfAll(ptrs, fs);
    var z := CheckEach(next, write && k == 1, fs, x).value;
    StepOk(fs, s, c, k, ptrs, write, x, z);
    var t := s[c].target;
    if k > 1 {
      FollowOk(fs, s, t, k - 1, next, write, z, y);
      assert Chase(s, c, k) == Chase(s, t, k - 1);
    } else {
      assert Chase(s, t, 0) == Some(t);
    }
  }

  lemma VisitReadOk(v: Variable, k: nat, fs: FactVec, s: Store, c: Context)
    requires StoreOk(s) && Covers(fs, s) && v in s && k <= v.Level()
    requires VisitRead(v, k, fs, c).Some?
    ensures var d := VisitRead(v, k, fs, c).value;
      && Extends(c, d)
      && Chase(s, v, k).Some?
      && var x := Chase(s, v, k).value;
         && x in s && s[x] != DEAD
         && forall p :: p in Path(s, v, k) + {x} ==> ReadOk(p, c.context, d.accum)
  {
    CellFacts(s, v);
    var c' := CheckRead(v, fs, c).value;
    var d := VisitRead(v, k, fs, c).value;
    if k > 0 { FollowOk(fs, s, v, k, [v.Coll()], false, c', d); }
    var x := Chase(s, v, k).value;
    ChaseCovered(fs, s, v, k, [v.Coll()]);
    CellFacts(s, x);
    assert x.IsPointer() ==> CoveredAt(fs, s, x);
    forall p | p in Path(s, v, k) + {x} ensures ReadOk(p, c.context, d.accum) {
      if p in Path(s, v, k) { InnerOkPath(s, v, k, c.context, d.accum, p); }
    }
  }

  lemma VisitLhsOk(v: Variable, k: nat, fs: FactVec, s: Store, c: Context)
    requires StoreOk(s) && Covers(fs, s) && v in s && k <= v.Level() && c.accum == NO_EFFECT
    requires VisitLhs(v, k, fs, c).Some?
    ensures var d := VisitLhs(v, k, fs, c).value;
      && Extends(c, d)
      && Chase(s, v, k).Some?
      && (var x := Chase(s, v, k).value; WriteOk(x, c.context, d.accum) && x.Coll() in d.accum.lhsWriteVars && x in s)
      && forall p :: p in Path(s, v, k) ==> ReadOk(p, c.context, d.accum)
  {
    var d := VisitLhs(v, k, fs, c).value;
    if k > 0 {
      var c' := CheckRead(v, fs, c).value;
      var y := Follow([v.Coll()], k, true, fs, c').value;
      FollowOk(fs, s, v, k, [v.Coll()], true, c', y);
      forall p | p in Path(s, v, k) ensures ReadOk(p, c.context, d.accum) {
        InnerOkPath(s, v, k, c.context, y.accum, p);
      }
    }
    ChaseCovered(fs, s, v, k, [v.Coll()]);
  }

  // ---------- assignment transfer ----------

  /** The value of a pointer expression can be read again where the expression took it from. */
  ghost predicate Recoverable(e: Expr, s: Store, x: Value) {
    match e
    case Const(level, n) => level > 0 ==> x == if n == 0 then Ptr(NullPtr) else DEAD
    case Read(v, k) =>
      if k < 0 then x == Ptr(v)
      else Chase(s, v, k).Some? && Chase(s, v, k).value in s && s[Chase(s, v, k).value] == x
    case Assign(_, _, rhs, _) => Recoverable(rhs, s, x)
    case Comma(_, r) => Recoverable(r, s, x)
    case _ => true
  }

  /** Writing a location leaves chains that end at its own level, or above it, in place: all
      locations before the last one have more pointer levels than the one written. */
  lemma {:induction false} ChaseAfterWrite(s: Store, c: Variable, k: nat, t: Variable, x: Value)
    requires StoreOk(s) && c in s && t in s && k <= c.Level() && c.Level() - k == t.Level()
    requires Chase(s, c, k).Some?
    ensures Chase(s[t := x], c, k) == Chase(s, c, k)
    decreases k
  {
    if k > 0 {
      CellFacts(s, c);
      CellFacts(s, s[c].target);
      ChaseAfterWrite(s, s[c].target, k - 1, t, x);
    }
  }

  /** Nested assignments: the value of `e` is still recoverable after it has been stored into a
      location of its own level, even if that is the location `e` was read from. */
  lemma {:induction false} RecoverableAfterWrite(e: Expr, s: Store, t: Variable, x: Value)
    requires StoreOk(s) && t in s && WellTyped(e, s.Keys) && LevelOf(e) == t.Level() > 0
    requires Recoverable(e, s, x)
    ensures Recoverable(e, s[t := x], x)
    decreases e
  {
    match e
    case Read(v, k) => if k >= 0 { RecoverReadAfterWrite(v, k, s, t, x); }
    case Assign(_, _, rhs, _) => RecoverableAfterWrite(rhs, s, t, x);
    case Comma(_, r) => RecoverableAfterWrite(r, s, t, x);
    case _ =>
  }

  lemma RecoverReadAfterWrite(v: Variable, k: nat, s: Store, t: Variable, x: Value)
    requires StoreOk(s) && v in s && t in s && k <= v.Level() && v.Level() - k == t.Level()
    requires Chase(s, v, k).Some? && Chase(s, v, k).value in s && s[Chase(s, v, k).value] == x
    ensures Chase(s[t := x], v, k) == Chase(s, v, k)
  {
    ChaseAfterWrite(s, v, k, t, x);
  }

  lemma {:induction false} RecoverableCovered(e: Expr, fs: FactVec, s: Store, x: Value)
    requires StoreOk(s) && Covers(fs, s) && WellTyped(e, s.Keys) && LevelOf(e) > 0
    requires Recoverable(e, s, x) && x.Ptr?
    ensures RhsPointees(e, fs).Some? && x.target.Coll() in RhsPointees(e, fs).value
    decreases e
  {
    match e
    case Const(_, _) =>
    case Read(v, k) =>
      if k >= 0 {
        var c := Chase(s, v, k).value;
        ChaseCovered(fs, s, v, k, [v.Coll()]);
        TargetCovered(fs, s, c, Deref([v.Coll()], k, fs));
        DerefLast([v.Coll()], k, fs);
      }
    case Assign(_, _, rhs, _) => RecoverableCovered(rhs, fs, s, x);
    case Comma(_, r) => RecoverableCovered(r, fs, s, x);
  }

  lemma {:induction false} DerefLast(start: seq<Variable>, k: nat, fs: FactVec)
    ensures Deref(start, k + 1, fs) == PointeesOfAll(Deref(start, k, fs), fs)
    decreases k
  {
    if k > 0 { DerefLast(PointeesOfAll(start, fs), k - 1, fs); }
  }

  lemma {:induction false} MakeFactsMeaning(vs: seq<Variable>, pts: seq<Variable>, w: Variable)
    requires !w.IsSpecial() && w in vs
    ensures Has(MakeFacts(vs, pts), w) && Pointees(MakeFacts(vs, pts), w) == pts && MakeFacts(vs, pts) != []
    decreases |vs|
  {
    var rest := MakeFacts(vs[1..], pts);
    assert vs == [vs[0]] + vs[1..] && [] + rest == rest;
    if w in vs[1..] { MakeFactsMeaning(vs[1..], pts, w); }
    LookupCons(PointTo(vs[0], pts), rest, w);
  }

  lemma {:induction false} MakeFactsElements(vs: seq<Variable>, pts: seq<Variable>, f: Fact)
    requires f in MakeFacts(vs, pts)
    ensures f == PointTo(f.v, pts) && f.v in vs && !f.v.IsSpecial()
    decreases |vs|
  {
    if !(f == PointTo(vs[0], pts) && !vs[0].IsSpecial()) {
      assert f in MakeFacts(vs[1..], pts);
      MakeFactsElements(vs[1..], pts, f);
    }
  }

  lemma {:induction false} RhsNoDup(e: Expr, fs: FactVec)
    requires RhsPointees(e, fs).Some?
    ensures NoDup(RhsPointees(e, fs).value)
    decreases e
  {
    match e
    case Const(_, _) =>
    case Read(v, k) => if k >= 0 { DerefNoDup([v.Coll()], k + 1, fs); }
    case Assign(_, _, rhs, _) => RhsNoDup(rhs, fs);
    case Comma(_, r) => RhsNoDup(r, fs);
  }

  /** The transfer of an assignment is sound at any dereference depth on both sides: if the facts
      cover the store before the write, they cover the store after it. */
  lemma AssignmentTransferSound(v: Variable, k: nat, rhs: Expr, fs: FactVec, s: Store, x: Value)
    requires StoreOk(s) && Covers(fs, s) && WellFormed(fs)
    requires v in s && k <= v.Level() && Chase(s, v, k).Some?
    requires WellTyped(rhs, s.Keys) && LevelOf(rhs) == v.Level() - k
    requires HasType(x, v.Level() - k, s.Keys) && (k < v.Level() ==> Recoverable(rhs, s, x))
    ensures var s' := s[Chase(s, v, k).value := x];
      StoreOk(s') && Covers(AssignedFacts(v, k, rhs, fs), s') && WellFormed(AssignedFacts(v, k, rhs, fs))
  {
    var t := Chase(s, v, k).value;
    ChaseCovered(fs, s, v, k, [v.Coll()]);
    WriteKeepsStoreOk(s, t, x);
    if k < v.Level() {
      RecoverableCovered(rhs, fs, s, x);
      RhsNoDup(rhs, fs);
      var targets := Deref([v.Coll()], k, fs);
      var pts := RhsPointees(rhs, fs).value;
      var news := MakeFacts(targets, pts);
      CellFacts(s, t);
      MakeFactsMeaning(targets, pts, t.Coll());
      forall f | f in news ensures FactNoDup(f) { MakeFactsElements(targets, pts, f); }
      if |targets| == 1 && !news[0].v.IsArray() {
        MakeFactsElements(targets, pts, news[0]);
        RenewedCovers(fs, s, news[0], t, x);
      } else {
        MergedCovers(fs, s, news, t, x);
      }
    } else {
      forall c | c in s[t := x] && c.IsPointer() ensures CoveredAt(fs, s[t := x], c) {
        assert CoveredAt(fs, s, c);
      }
    }
  }

  lemma WriteKeepsStoreOk(s: Store, t: Variable, x: Value)
    requires StoreOk(s) && t in s && HasType(x, t.Level(), s.Keys)
    ensures StoreOk(s[t := x]) && s[t := x].Keys == s.Keys
  {
    var s' := s[t := x];
    assert s'.Keys == s.Keys;
    CellFacts(s, t);
    forall c | c in s' ensures CellOk(s', c) {
      CellFacts(s, c);
    }
  }

  /** A strong update: the target is certain and is one location, so the old fact is replaced. */
  lemma RenewedCovers(fs: FactVec, s: Store, n: Fact, t: Variable, x: Value)
    requires StoreOk(s) && Covers(fs, s) && WellFormed(fs) && FactNoDup(n)
    requires n.PointTo? && t in s && n.v == t.Coll() && !n.v.IsArray() && x.Ptr? && x.target.Coll() in n.pts
    ensures Covers(Renewed(fs, n), s[t := x]) && WellFormed(Renewed(fs, n))
  {
    MergedWellFormed(fs, n);
    var fs', s' := Renewed(fs, n), s[t := x];
    CellFacts(s, t);
    assert t == n.v;
    forall c | c in s' && c.IsPointer()
      ensures CoveredAt(fs', s', c)
    {
      if c != t {
        assert CoveredAt(fs, s, c);
        CellFacts(s, c);
      }
      RelatedIndexSame(fs, n, PointTo(n.v, []));
      RenewedMeaning(fs, n, c.Coll());
      assert c.IsCell();
      InToSet(Pointees(fs', c.Coll()), s'[c].target.Coll());
      InToSet(n.pts, s'[c].target.Coll());
      InToSet(Pointees(fs, c.Coll()), s'[c].target.Coll());
      assert c != t ==> c.Coll() != n.v;
    }
  }

  lemma InToSet(xs: seq<Variable>, x: Variable)
    ensures x in ToSet(xs) <==> x in xs
  {}

  /** A weak update: the new pointees are added to those of every possible target. */
  lemma MergedCovers(fs: FactVec, s: Store, news: FactVec, t: Variable, x: Value)
    requires StoreOk(s) && Covers(fs, s) && WellFormed(fs) && forall f :: f in news ==> FactNoDup(f)
    requires t in s && Has(news, t.Coll()) && x.Ptr? && x.target.Coll() in Pointees(news, t.Coll())
    ensures Covers(MergedAll(fs, news), s[t := x]) && WellFormed(MergedAll(fs, news))
  {
    MergedAllWellFormed(fs, news);
    var fs', s' := MergedAll(fs, news), s[t := x];
    forall c | c in s' && c.IsPointer()
      ensures CoveredAt(fs', s', c)
    {
      if c != t {
        assert CoveredAt(fs, s, c);
        CellFacts(s, c);
      }
      MergedAllMeaning(fs, news, c.Coll());
      InToSet(Pointees(fs', c.Coll()), s'[c].target.Coll());
      InToSet(Pointees(news, c.Coll()), s'[c].target.Coll());
      InToSet(Pointees(fs, c.Coll()), s'[c].target.Coll());
    }
  }

  /** The result of a merge covers every store that one of the merged vectors covers. */
  lemma MergeCovers(fs: FactVec, gs: FactVec, s: Store)
    requires Covers(fs, s) || Covers(gs, s)
    ensures Covers(MergedAll(fs, gs), s)
  {
    var hs := MergedAll(fs, gs);
    forall c | c in s && c.IsPointer()
      ensures CoveredAt(hs, s, c)
    {
      assert Covers(fs, s) ==> CoveredAt(fs, s, c);
      assert Covers(gs, s) ==> CoveredAt(gs, s, c);
      MergedAllMeaning(fs, gs, c.Coll());
      InToSet(Pointees(hs, c.Coll()), s[c].target.Coll());
      InToSet(Pointees(fs, c.Coll()), s[c].target.Coll());
      InToSet(Pointees(gs, c.Coll()), s[c].target.Coll());
    }
  }
}
