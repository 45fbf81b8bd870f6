/** Following points-to facts along a chain of dereferences, and retiring facts at scope exit. */
module PointsTo {
  import opened Collections
  import opened Variables
  import opened Facts

  // ---------- dereference chains ----------

  /** One level of dereference: everything the given pointers may point to. Special pointers
      and pointers without a fact contribute nothing. */
  function PointeesOfAll(ptrs: seq<Variable>, fs: FactVec, acc: seq<Variable> := []): seq<Variable>
    decreases |ptrs|
  {
    if ptrs == [] then acc
    else PointeesOfAll(ptrs[1..], fs, if ptrs[0].IsSpecial() then acc else AddVars(acc, Pointees(fs, ptrs[0])))
  }

  lemma {:induction false} PointeesOfAllMembers(ptrs: seq<Variable>, fs: FactVec, acc: seq<Variable>, x: Variable)
    ensures x in PointeesOfAll(ptrs, fs, acc)
       <==> x in acc || exists p :: p in ptrs && !p.IsSpecial() && x in Pointees(fs, p)
    decreases |ptrs|
  {
    if ptrs != [] {
      var p := ptrs[0];
      var acc' := if p.IsSpecial() then acc else AddVars(acc, Pointees(fs, p));
      assert x in acc' <==> x in acc || (!p.IsSpecial() && x in Pointees(fs, p)) by {
        if !p.IsSpecial() { AddVarsMembers(acc, Pointees(fs, p), x); }
      }
      PointeesOfAllMembers(ptrs[1..], fs, acc', x);
      assert ptrs == [p] + ptrs[1..];
    }
  }

  lemma {:induction false} PointeesOfAllNoDup(ptrs: seq<Variable>, fs: FactVec, acc: seq<Variable>)
    requires NoDup(acc)
    ensures NoDup(PointeesOfAll(ptrs, fs, acc))
    decreases |ptrs|
  {
    if ptrs != [] {
      AddVarsMeaning(acc, Pointees(fs, ptrs[0]));
      PointeesOfAllNoDup(ptrs[1..], fs, if ptrs[0].IsSpecial() then acc else AddVars(acc, Pointees(fs, ptrs[0])));
    }
  }

  function Deref(start: seq<Variable>, k: nat, fs: FactVec): seq<Variable>
    decreases k
  {
    if k == 0 then start else Deref(PointeesOfAll(start, fs), k - 1, fs)
  }

  lemma {:induction false} DerefNoDup(start: seq<Variable>, k: nat, fs: FactVec)
    requires NoDup(start)
    ensures NoDup(Deref(start, k, fs))
    decreases k
  {
    if k > 0 {
      PointeesOfAllNoDup(start, fs, []);
      DerefNoDup(PointeesOfAll(start, fs), k - 1, fs);
    }
  }

  method AddVariablesToSet(vs: seq<Variable>, more: seq<Variable>) returns (r: seq<Variable>)
    ensures r == AddVars(vs, more)
  {
    r := vs;
    var j := 0;
    while j < |more|
      invariant 0 <= j <= |more|
      invariant AddVars(vs, more) == AddVars(r, more[j..])
    {
      assert more[j..][1..] == more[j + 1..];
      r := AddVar(r, more[j]);
      j := j + 1;
    }
  }

  method MergePointeesOfPointers(ptrs: seq<Variable>, fs: FactVec) returns (r: seq<Variable>)
    ensures r == PointeesOfAll(ptrs, fs)
  {
    r := [];
    var i := 0;
    while i < |ptrs|
      invariant 0 <= i <= |ptrs|
      invariant PointeesOfAll(ptrs, fs) == PointeesOfAll(ptrs[i..], fs, r)
    {
      var p := ptrs[i];
      assert ptrs[i..][1..] == ptrs[i + 1..];
      if !p.IsSpecial() {
        var fact := FindRelatedFact(fs, PointTo(p, []));
        if fact < |fs| {
          r := AddVariablesToSet(r, fs[fact].pts);
        }
      }
      i := i + 1;
    }
  }

  method MergePointeesOfPointer(ptr: Variable, indirect: nat, fs: FactVec) returns (r: seq<Variable>)
    ensures r == Deref([ptr], indirect, fs)
  {
    r := [ptr];
    var k := indirect;
    while k > 0
      invariant Deref([ptr], indirect, fs) == Deref(r, k, fs)
    {
      r := MergePointeesOfPointers(r, fs);
      k := k - 1;
    }
  }

  predicate MayBeNull(fs: FactVec, v: Variable) { NullPtr in Pointees(fs, v) }

  predicate MayBeDead(fs: FactVec, v: Variable) { GarbagePtr in Pointees(fs, v) }

  predicate IsValidPtr(fs: FactVec, v: Variable) {
    Has(fs, v) && !MayBeNull(fs, v) && !MayBeDead(fs, v)
  }

  // ---------- scope exit ----------

  function IndexOf(xs: seq<Variable>, x: Variable): (i: nat)
    requires x in xs
    ensures i < |xs| && xs[i] == x && x !in xs[..i]
  {
    if xs[0] == x then 0 else
      assert xs[1..][..IndexOf(xs[1..], x)] == xs[1..1 + IndexOf(xs[1..], x)];
      assert xs[..1 + IndexOf(xs[1..], x)] == [xs[0]] + xs[1..1 + IndexOf(xs[1..], x)];
      1 + IndexOf(xs[1..], x)
  }

  /** `f` once `v` is dead: one occurrence of `v` becomes the garbage pointer, or goes away when
      the garbage pointer is already listed. */
  function MarkedDead(f: Fact, v: Variable): Fact {
    if f.PointTo? && v in f.pts then
      var pos := IndexOf(f.pts, v);
      if GarbagePtr in f.pts then f.(pts := f.pts[..pos] + f.pts[pos + 1..])
      else f.(pts := f.pts[pos := GarbagePtr])
    else f
  }

  function Dropped(fs: FactVec, v: Variable): FactVec {
    if fs == [] then []
    else (if fs[0].v == v then [] else [fs[0]]) + Dropped(fs[1..], v)
  }

  function DroppedAll(fs: FactVec, vs: seq<Variable>): FactVec
    decreases |vs|
  {
    if vs == [] then fs else DroppedAll(Dropped(fs, vs[0]), vs[1..])
  }

  function MarkedEach(fs: FactVec, v: Variable): FactVec {
    seq(|fs|, i requires 0 <= i < |fs| => MarkedDead(fs[i], v))
  }

  function MarkedAll(fs: FactVec, vs: seq<Variable>): FactVec
    decreases |vs|
  {
    if vs == [] then fs else MarkedAll(MarkedEach(fs, vs[0]), vs[1..])
  }

  function OutOfScope(fs: FactVec, vs: seq<Variable>): FactVec {
    MarkedAll(DroppedAll(fs, vs), vs)
  }

  lemma {:induction false} DroppedSnoc(fs: FactVec, f: Fact, v: Variable)
    ensures Dropped(fs + [f], v) == Dropped(fs, v) + (if f.v == v then [] else [f])
  {
    var last := if f.v == v then [] else [f];
    if fs == [] {
      assert fs + [f] == [f] && Dropped([f], v) == last + [];
    } else {
      var first := if fs[0].v == v then [] else [fs[0]];
      DroppedSnoc(fs[1..], f, v);
      assert Dropped(fs + [f], v) == first + Dropped(fs[1..] + [f], v) by {
        assert (fs + [f])[1..] == fs[1..] + [f];
      }
      assert first + (Dropped(fs[1..], v) + last) == (first + Dropped(fs[1..], v)) + last;
    }
  }

  method UpdateFactsForOosVars(vars: seq<Variable>, facts: FactVec) returns (r: FactVec)
    ensures r == OutOfScope(facts, vars)
  {
    r := facts;
    var i := 0;
    while i < |vars|
      invariant 0 <= i <= |vars|
      invariant DroppedAll(facts, vars) == DroppedAll(r, vars[i..])
    {
      var v := vars[i];
      assert vars[i..][1..] == vars[i + 1..];
      ghost var before, seen := r, 0;
      var j, len := 0, |r|;
      while j < len
        invariant 0 <= j <= len == |r| && seen <= |before|
        invariant r[..j] == Dropped(before[..seen], v) && r[j..] == before[seen..]
        decreases len - j
      {
        assert before[..seen + 1] == before[..seen] + [before[seen]];
        DroppedSnoc(before[..seen], before[seen], v);
        assert r[j] == r[j..][0] == before[seen..][0] == before[seen];
        assert r[j + 1..] == r[j..][1..] == before[seen..][1..] == before[seen + 1..];
        if r[j].v == v {
          r := r[..j] + r[j + 1..];
          len := len - 1;
        } else {
          assert r[..j + 1] == r[..j] + [r[j]];
          j := j + 1;
        }
        seen := seen + 1;
      }
      assert before[..seen] == before && r[..j] == r;
      i := i + 1;
    }
    ghost var dropped := r;
    i := 0;
    while i < |vars|
      invariant 0 <= i <= |vars|
      invariant MarkedAll(dropped, vars) == MarkedAll(r, vars[i..])
    {
      var v := vars[i];
      assert vars[i..][1..] == vars[i + 1..];
      ghost var before := r;
      var j := 0;
      while j < |r|
        invariant 0 <= j <= |r| == |before|
        invariant forall k :: 0 <= k < |r| ==> r[k] == if k < j then MarkedDead(before[k], v) else before[k]
      {
        r := r[j := MarkedDead(r[j], v)];
        j := j + 1;
      }
      assert r == MarkedEach(before, v);
      i := i + 1;
    }
  }

  // ----- what scope exit means -----

  lemma LookupCons(f: Fact, fs: FactVec, w: Variable)
    ensures Has([f] + fs, w) <==> (f.PointTo? && f.v == w) || Has(fs, w)
    ensures Pointees([f] + fs, w) == if f.PointTo? && f.v == w then f.pts else Pointees(fs, w)
  {
    var r := [f] + fs;
    assert r[0] == f && r[1..] == fs;
  }

  lemma {:induction false} DroppedMeaning(fs: FactVec, v: Variable, w: Variable)
    ensures Has(Dropped(fs, v), w) <==> Has(fs, w) && w != v
    ensures w != v ==> Pointees(Dropped(fs, v), w) == Pointees(fs, w)
  {
    if fs != [] {
      DroppedMeaning(fs[1..], v, w);
      var f, rest := fs[0], fs[1..];
      var d := Dropped(rest, v);
      LookupCons(f, rest, w);
      LookupCons(f, d, w);
      assert [f] + rest == fs;
      assert Dropped(fs, v) == if f.v == v then d else [f] + d by {
        assert [] + d == d;
      }
    }
  }

  lemma {:induction false} DroppedWellFormed(fs: FactVec, v: Variable)
    requires WellFormed(fs)
    ensures WellFormed(Dropped(fs, v))
    ensures forall f :: f in Dropped(fs, v) <==> f in fs && f.v != v
  {
    if fs != [] {
      assert WellFormed(fs[1..]);
      DroppedWellFormed(fs[1..], v);
      var d := Dropped(fs[1..], v);
      forall j | 0 <= j < |d| ensures !Related(fs[0], d[j]) {
        assert d[j] in fs[1..];
      }
    }
  }

  lemma {:induction false} DroppedAllMeaning(fs: FactVec, vs: seq<Variable>, w: Variable)
    ensures Has(DroppedAll(fs, vs), w) <==> Has(fs, w) && w !in vs
    ensures w !in vs ==> Pointees(DroppedAll(fs, vs), w) == Pointees(fs, w)
    ensures WellFormed(fs) ==> WellFormed(DroppedAll(fs, vs))
    decreases |vs|
  {
    if vs != [] {
      DroppedMeaning(fs, vs[0], w);
      if WellFormed(fs) { DroppedWellFormed(fs, vs[0]); }
      DroppedAllMeaning(Dropped(fs, vs[0]), vs[1..], w);
    }
  }

  /** The pointees left when the variables of `dead` are gone. */
  ghost function Survivors(pts: set<Variable>, dead: set<Variable>): set<Variable> {
    (pts - dead) + if pts !! dead then {} else {GarbagePtr}
  }

  lemma RemovedAt(xs: seq<Variable>, pos: nat)
    requires NoDup(xs) && pos < |xs|
    ensures NoDup(xs[..pos] + xs[pos + 1..])
    ensures ToSet(xs[..pos] + xs[pos + 1..]) == ToSet(xs) - {xs[pos]}
  {
    var r := xs[..pos] + xs[pos + 1..];
    forall x | x in xs && x != xs[pos] ensures x in r {
      var k :| 0 <= k < |xs| && xs[k] == x;
      assert r[if k < pos then k else k - 1] == x;
    }
  }

  lemma ReplacedAt(xs: seq<Variable>, pos: nat, y: Variable)
    requires NoDup(xs) && pos < |xs| && y !in xs
    ensures NoDup(xs[pos := y])
    ensures ToSet(xs[pos := y]) == ToSet(xs) - {xs[pos]} + {y}
  {
    var r := xs[pos := y];
    assert r[pos] == y;
    forall x | x in xs && x != xs[pos] ensures x in r {
      var k :| 0 <= k < |xs| && xs[k] == x;
      assert r[k] == x;
    }
  }

  lemma MarkedDeadMeaning(f: Fact, v: Variable)
    requires f.PointTo? && NoDup(f.pts) && v != GarbagePtr
    ensures MarkedDead(f, v).PointTo? && MarkedDead(f, v).v == f.v
    ensures NoDup(MarkedDead(f, v).pts)
    ensures ToSet(MarkedDead(f, v).pts) == Survivors(ToSet(f.pts), {v})
  {
    if v in f.pts {
      var pos := IndexOf(f.pts, v);
      if GarbagePtr in f.pts {
        RemovedAt(f.pts, pos);
      } else {
        ReplacedAt(f.pts, pos, GarbagePtr);
      }
    }
  }

  lemma MarkedEachMeaning(fs: FactVec, v: Variable, w: Variable)
    requires WellFormed(fs) && v != GarbagePtr
    ensures WellFormed(MarkedEach(fs, v))
    ensures Has(MarkedEach(fs, v), w) <==> Has(fs, w)
    ensures ToSet(Pointees(MarkedEach(fs, v), w)) == Survivors(ToSet(Pointees(fs, w)), {v})
  {
    var r := MarkedEach(fs, v);
    forall i | 0 <= i < |fs| ensures FactNoDup(r[i]) && Related(r[i], fs[i]) {
      if fs[i].PointTo? { MarkedDeadMeaning(fs[i], v); }
    }
    forall i, j | 0 <= i < j < |r| ensures !Related(r[i], r[j]) { assert !Related(fs[i], fs[j]); }
    var key := PointTo(w, []);
    var i := RelatedIndex(fs, key);
    RelatedIndexFirst(fs, key);
    RelatedIndexUnique(r, key, i);
    if i < |fs| { MarkedDeadMeaning(fs[i], v); }
  }

  lemma {:induction false} MarkedAllMeaning(fs: FactVec, vs: seq<Variable>, w: Variable)
    requires WellFormed(fs) && GarbagePtr !in vs
    ensures WellFormed(MarkedAll(fs, vs))
    ensures Has(MarkedAll(fs, vs), w) <==> Has(fs, w)
    ensures ToSet(Pointees(MarkedAll(fs, vs), w)) == Survivors(ToSet(Pointees(fs, w)), ToSet(vs))
    decreases |vs|
  {
    if vs != [] {
      MarkedEachMeaning(fs, vs[0], w);
      MarkedAllMeaning(MarkedEach(fs, vs[0]), vs[1..], w);
      assert ToSet(vs) == {vs[0]} + ToSet(vs[1..]);
    }
  }

  /** Scope exit, exactly: facts about the dead variables are gone and all others stay; a fact
      that pointed to a dead variable now lists the garbage pointer, once; no other pointee is
      lost or gained; and no fact points to a dead variable any more. */
  lemma ScopeExitIsExact(fs: FactVec, vs: seq<Variable>, w: Variable)
    requires WellFormed(fs) && GarbagePtr !in vs
    ensures WellFormed(OutOfScope(fs, vs))
    ensures Has(OutOfScope(fs, vs), w) <==> Has(fs, w) && w !in vs
    ensures w !in vs ==>
      ToSet(Pointees(OutOfScope(fs, vs), w)) == Survivors(ToSet(Pointees(fs, w)), ToSet(vs))
    ensures ToSet(Pointees(OutOfScope(fs, vs), w)) !! ToSet(vs)
    ensures NoDup(Pointees(OutOfScope(fs, vs), w))
  {
    DroppedAllMeaning(fs, vs, w);
    MarkedAllMeaning(DroppedAll(fs, vs), vs, w);
  }
}
