/** Facts and fact vectors. */
module Facts {
  // Dataflow facts and vectors of facts: the lattice operations of both fact categories and the
  // functions that merge, renew and compare fact vectors.

  import opened Collections
  import opened Variables

  /** `PointTo(v, pts)`: every location of `v` holds one of `pts`.
      `UnionWrite(v, fid)`: field `fid` of union `v` was written last. */
  datatype Fact =
    | PointTo(v: Variable, pts: seq<Variable>)
    | UnionWrite(v: Variable, fid: int)

  type FactVec = seq<Fact>

  const TOP: int := -2
  const BOTTOM: int := -1

  // ---------- one fact ----------

  predicate Related(f: Fact, g: Fact) {
    f.PointTo? == g.PointTo? && f.v == g.v
  }

  predicate SubVars(a: seq<Variable>, b: seq<Variable>) {
    |a| <= |b| && forall x :: x in a ==> x in b
  }

  predicate EqualVars(a: seq<Variable>, b: seq<Variable>) {
    |a| == |b| && forall x :: x in a ==> x in b
  }

  predicate Imply(f: Fact, g: Fact) {
    && Related(f, g)
    && match f
       case PointTo(_, pts) => SubVars(g.pts, pts)
       case UnionWrite(_, fid) => fid == BOTTOM || (g.fid != BOTTOM && fid == g.fid)
  }

  predicate EqualFact(f: Fact, g: Fact) {
    && Related(f, g)
    && match f
       case PointTo(_, pts) => EqualVars(pts, g.pts)
       case UnionWrite(_, fid) => fid == g.fid
  }

  function AddVar(xs: seq<Variable>, x: Variable): seq<Variable> {
    if x in xs then xs else xs + [x]
  }

  function AddVars(xs: seq<Variable>, ys: seq<Variable>): seq<Variable>
    decreases |ys|
  {
    if ys == [] then xs else AddVars(AddVar(xs, ys[0]), ys[1..])
  }

  lemma {:induction false} AddVarsMeaning(xs: seq<Variable>, ys: seq<Variable>)
    ensures ToSet(AddVars(xs, ys)) == ToSet(xs) + ToSet(ys)
    ensures NoDup(xs) ==> NoDup(AddVars(xs, ys))
    decreases |ys|
  {
    if ys != [] {
      AddVarsMeaning(AddVar(xs, ys[0]), ys[1..]);
      assert ys == [ys[0]] + ys[1..];
    }
  }

  lemma AddVarsMembers(xs: seq<Variable>, ys: seq<Variable>, x: Variable)
    ensures x in AddVars(xs, ys) <==> x in xs || x in ys
  {
    AddVarsMeaning(xs, ys);
    assert x in AddVars(xs, ys) <==> x in ToSet(AddVars(xs, ys));
    assert x in xs <==> x in ToSet(xs);
    assert x in ys <==> x in ToSet(ys);
  }

  function Join(f: Fact, g: Fact): Fact {
    if !Related(f, g) then f
    else match f
      case PointTo(v, pts) => PointTo(v, AddVars(pts, g.pts))
      case UnionWrite(v, fid) =>
        if Imply(f, g) then f
        else if Imply(g, f) then f.(fid := g.fid)
        else f.(fid := BOTTOM)
  }

  /** The join is the least upper bound: above both arguments, and below whatever is above both. */
  lemma JoinIsLeastUpperBound(f: Fact, g: Fact, h: Fact)
    requires Related(f, g) && FactNoDup(f) && FactNoDup(g) && FactNoDup(h)
    ensures Imply(Join(f, g), f) && Imply(Join(f, g), g)
    ensures Imply(h, Join(f, g)) <==> Imply(h, f) && Imply(h, g)
  {
    if f.PointTo? {
      var j := Join(f, g);
      AddVarsMeaning(f.pts, g.pts);
      SubVarsIsSubset(f.pts, j.pts);
      SubVarsIsSubset(g.pts, j.pts);
      if h.PointTo? {
        SubVarsIsSubset(f.pts, h.pts);
        SubVarsIsSubset(g.pts, h.pts);
        SubVarsIsSubset(j.pts, h.pts);
      }
    }
  }

  /** The size test in `SubVars` and `EqualVars` is harmless for vectors without duplicates. */
  lemma SubVarsIsSubset(a: seq<Variable>, b: seq<Variable>)
    requires NoDup(a) && NoDup(b)
    ensures SubVars(a, b) <==> ToSet(a) <= ToSet(b)
    ensures EqualVars(a, b) <==> ToSet(a) == ToSet(b)
  {
    NoDupCard(a);
    NoDupCard(b);
    if ToSet(a) <= ToSet(b) {
      SubsetCard(ToSet(a), ToSet(b));
      assert forall x :: x in a ==> x in ToSet(a);
    }
    if forall x :: x in a ==> x in b {
      assert ToSet(a) <= ToSet(b);
      if |a| == |b| { SubsetCard(ToSet(a), ToSet(b)); }
    }
  }

  // ---------- fact vectors ----------

  predicate FactNoDup(f: Fact) {
    f.PointTo? ==> NoDup(f.pts)
  }

  /** The representation invariant of a fact vector: at most one fact for each category and
      variable, and no pointee listed twice. */
  ghost predicate WellFormed(fs: FactVec) {
    && (forall i, j :: 0 <= i < j < |fs| ==> !Related(fs[i], fs[j]))
    && (forall i :: 0 <= i < |fs| ==> FactNoDup(fs[i]))
  }

  function RelatedIndex(fs: FactVec, f: Fact): (i: nat)
    ensures i <= |fs|
    ensures i < |fs| ==> Related(fs[i], f)
  {
    if fs == [] || Related(fs[0], f) then 0 else 1 + RelatedIndex(fs[1..], f)
  }

  lemma {:induction false} RelatedIndexFirst(fs: FactVec, f: Fact)
    ensures forall j :: 0 <= j < RelatedIndex(fs, f) ==> !Related(fs[j], f)
  {
    if fs != [] && !Related(fs[0], f) {
      RelatedIndexFirst(fs[1..], f);
      assert forall j :: 1 <= j < |fs| ==> fs[j] == fs[1..][j - 1];
    }
  }

  predicate Has(fs: FactVec, v: Variable) {
    RelatedIndex(fs, PointTo(v, [])) < |fs|
  }

  /** The pointees the vector gives for `v`: those of the first fact about it. */
  function Pointees(fs: FactVec, v: Variable): seq<Variable> {
    var i := RelatedIndex(fs, PointTo(v, []));
    if i < |fs| then fs[i].pts else []
  }

  lemma RelatedIndexUnique(fs: FactVec, f: Fact, i: nat)
    requires i <= |fs| && (i < |fs| ==> Related(fs[i], f)) && forall j :: 0 <= j < i ==> !Related(fs[j], f)
    ensures RelatedIndex(fs, f) == i
  {
    RelatedIndexFirst(fs, f);
  }

  lemma RelatedIndexSame(fs: FactVec, f: Fact, g: Fact)
    requires Related(f, g)
    ensures RelatedIndex(fs, f) == RelatedIndex(fs, g)
  {
    var i := RelatedIndex(fs, f);
    var j := RelatedIndex(fs, g);
    RelatedIndexFirst(fs, f);
    RelatedIndexFirst(fs, g);
    assert i < |fs| ==> Related(fs[i], g);
    assert j < |fs| ==> Related(fs[j], f);
  }

  function Merged(fs: FactVec, n: Fact): FactVec {
    var i := RelatedIndex(fs, n);
    if i == |fs| then fs + [n]
    else if Imply(fs[i], n) then fs
    else fs[i := Join(n, fs[i])]
  }

  function Renewed(fs: FactVec, n: Fact): FactVec {
    var i := RelatedIndex(fs, n);
    if i == |fs| then fs + [n]
    else if EqualFact(n, fs[i]) then fs
    else fs[i := n]
  }

  function MergedAll(fs: FactVec, ns: FactVec): FactVec
    decreases |ns|
  {
    if ns == [] then fs else MergedAll(Merged(fs, ns[0]), ns[1..])
  }

  method JoinPointees(f: Fact, g: Fact) returns (r: Fact, changed: bool)
    requires f.PointTo?
    ensures r == Join(f, g)
    ensures changed <==> r != f
  {
    r, changed := f, false;
    if Related(f, g) {
      var i := 0;
      while i < |g.pts|
        invariant 0 <= i <= |g.pts|
        invariant r.PointTo? && r.v == f.v && f.pts <= r.pts
        invariant changed <==> |r.pts| > |f.pts|
        invariant AddVars(f.pts, g.pts) == AddVars(r.pts, g.pts[i..])
      {
        assert g.pts[i..][1..] == g.pts[i + 1..];
        if g.pts[i] !in r.pts {
          r := r.(pts := r.pts + [g.pts[i]]);
          changed := true;
        }
        i := i + 1;
      }
    }
  }

  method FindRelatedFact(fs: FactVec, f: Fact) returns (i: nat)
    ensures i == RelatedIndex(fs, f)
  {
    i := 0;
    while i < |fs|
      invariant 0 <= i <= |fs|
      invariant forall j :: 0 <= j < i ==> !Related(fs[j], f)
    {
      if Related(f, fs[i]) { break; }
      i := i + 1;
    }
    RelatedIndexUnique(fs, f, i);
  }

  method MergeFact(fs: FactVec, n: Fact) returns (r: FactVec, changed: bool)
    ensures r == Merged(fs, n)
    ensures changed <==> !(RelatedIndex(fs, n) < |fs| && Imply(fs[RelatedIndex(fs, n)], n))
    ensures !changed ==> r == fs
  {
    r, changed := fs, false;
    var i := 0;
    while i < |fs|
      invariant 0 <= i <= |fs|
      invariant r == fs && !changed
      invariant forall j :: 0 <= j < i ==> !Related(fs[j], n)
    {
      var f := fs[i];
      if Related(f, n) {
        RelatedIndexUnique(fs, n, i);
        if !Imply(f, n) {
          r := fs[i := Join(n, f)];
          changed := true;
        }
        return;
      }
      i := i + 1;
    }
    RelatedIndexUnique(fs, n, |fs|);
    r, changed := fs + [n], true;
  }

  method RenewFact(fs: FactVec, n: Fact) returns (r: FactVec, changed: bool)
    ensures r == Renewed(fs, n)
    ensures changed <==> !(RelatedIndex(fs, n) < |fs| && EqualFact(n, fs[RelatedIndex(fs, n)]))
    ensures !changed ==> r == fs
  {
    r, changed := fs, false;
    var i := FindRelatedFact(fs, n);
    if i < |fs| {
      if EqualFact(n, fs[i]) { return; }
      r := fs[i := n];
    } else {
      r := fs + [n];
    }
    changed := true;
  }

  method MergeFacts(fs: FactVec, ns: FactVec) returns (r: FactVec, changed: bool)
    ensures r == MergedAll(fs, ns)
    ensures !changed ==> r == fs
  {
    r, changed := fs, false;
    var i := 0;
    while i < |ns|
      invariant 0 <= i <= |ns|
      invariant MergedAll(fs, ns) == MergedAll(r, ns[i..])
      invariant !changed ==> r == fs
    {
      assert ns[i..][1..] == ns[i + 1..];
      var c;
      r, c := MergeFact(r, ns[i]);
      if c { changed := true; }
      i := i + 1;
    }
  }

  predicate HasEqual(fs: FactVec, f: Fact) {
    exists i :: 0 <= i < |fs| && EqualFact(f, fs[i])
  }

  predicate SameFactsSpec(fs: FactVec, gs: FactVec) {
    |fs| == |gs| && forall i :: 0 <= i < |fs| ==> HasEqual(gs, fs[i])
  }

  method SameFacts(fs: FactVec, gs: FactVec) returns (same: bool)
    ensures same <==> SameFactsSpec(fs, gs)
  {
    if |fs| != |gs| { return false; }
    for i := 0 to |fs|
      invariant forall j :: 0 <= j < i ==> HasEqual(gs, fs[j])
    {
      var found := false;
      for k := 0 to |gs|
        invariant !found ==> forall j :: 0 <= j < k ==> !EqualFact(fs[i], gs[j])
        invariant found ==> HasEqual(gs, fs[i])
      {
        if EqualFact(fs[i], gs[k]) { found := true; }
      }
      if !found { return false; }
    }
    return true;
  }

  // ---------- what merging and renewing do to the pointees ----------

  lemma MergedMeaning(fs: FactVec, n: Fact, v: Variable)
    ensures n.PointTo? && v == n.v ==> ToSet(Pointees(Merged(fs, n), v)) == ToSet(Pointees(fs, v)) + ToSet(n.pts)
    ensures !(n.PointTo? && v == n.v) ==> Pointees(Merged(fs, n), v) == Pointees(fs, v)
    ensures Has(Merged(fs, n), v) <==> Has(fs, v) || (n.PointTo? && v == n.v)
  {
    var i := RelatedIndex(fs, n);
    if n.PointTo? { RelatedIndexSame(fs, n, PointTo(n.v, [])); }
    if i < |fs| {
      var j := Join(n, fs[i]);
      RelatedIndexSame(fs, n, j);
      PutMeaning(fs, j, v);
      if n.PointTo? { AddVarsMeaning(n.pts, fs[i].pts); }
      if n.PointTo? && Imply(fs[i], n) { assert ToSet(n.pts) <= ToSet(fs[i].pts); }
    } else {
      PutMeaning(fs, n, v);
    }
  }

  lemma RenewedMeaning(fs: FactVec, n: Fact, v: Variable)
    requires n.PointTo? && NoDup(n.pts) && NoDup(Pointees(fs, n.v))
    ensures ToSet(Pointees(Renewed(fs, n), v)) == if v == n.v then ToSet(n.pts) else ToSet(Pointees(fs, v))
    ensures Has(Renewed(fs, n), v) <==> Has(fs, v) || v == n.v
  {
    var i := RelatedIndex(fs, n);
    RelatedIndexSame(fs, n, PointTo(n.v, []));
    if i < |fs| { SubVarsIsSubset(n.pts, fs[i].pts); }
    PutMeaning(fs, n, v);
  }

  /** Writes `m` over the first fact related to it, or appends it. */
  function Put(fs: FactVec, m: Fact): FactVec {
    var i := RelatedIndex(fs, m);
    if i == |fs| then fs + [m] else fs[i := m]
  }

  /** Writing or appending one fact leaves the lookups of all other facts alone. */
  lemma PutMeaning(fs: FactVec, m: Fact, v: Variable)
    ensures Pointees(Put(fs, m), v) == if m.PointTo? && v == m.v then m.pts else Pointees(fs, v)
    ensures Has(Put(fs, m), v) <==> Has(fs, v) || (m.PointTo? && v == m.v)
  {
    var key := PointTo(v, []);
    var i := RelatedIndex(fs, m);
    var k := RelatedIndex(fs, key);
    var r := Put(fs, m);
    RelatedIndexFirst(fs, key);
    RelatedIndexFirst(fs, m);
    RelatedIndexFirst(r, key);
    assert forall j :: 0 <= j < |fs| ==> (Related(r[j], key) <==> Related(fs[j], key));
    if m.PointTo? && v == m.v {
      RelatedIndexSame(fs, m, key);
      RelatedIndexUnique(r, key, i);
    } else if k < |fs| {
      assert Related(fs[k], key);
      assert k != i;
      RelatedIndexUnique(r, key, k);
    } else {
      assert forall j :: 0 <= j < |r| ==> !Related(r[j], key);
    }
  }

  lemma MergedWellFormed(fs: FactVec, n: Fact)
    requires WellFormed(fs) && FactNoDup(n)
    ensures WellFormed(Merged(fs, n)) && WellFormed(Renewed(fs, n))
  {
    var i := RelatedIndex(fs, n);
    if i < |fs| {
      var j := Join(n, fs[i]);
      if n.PointTo? { AddVarsMeaning(n.pts, fs[i].pts); }
      WellFormedUpdate(fs, i, j);
      WellFormedUpdate(fs, i, n);
    } else {
      RelatedIndexFirst(fs, n);
    }
  }

  lemma WellFormedUpdate(fs: FactVec, i: nat, m: Fact)
    requires WellFormed(fs) && i < |fs| && Related(m, fs[i]) && FactNoDup(m)
    ensures WellFormed(fs[i := m])
  {
    var r := fs[i := m];
    forall a, b | 0 <= a < b < |r| ensures !Related(r[a], r[b]) {
      assert !Related(fs[a], fs[b]);
    }
  }

  lemma {:induction false} MergedAllWellFormed(fs: FactVec, ns: FactVec)
    requires WellFormed(fs) && forall i :: 0 <= i < |ns| ==> FactNoDup(ns[i])
    ensures WellFormed(MergedAll(fs, ns))
    decreases |ns|
  {
    if ns != [] {
      MergedWellFormed(fs, ns[0]);
      MergedAllWellFormed(Merged(fs, ns[0]), ns[1..]);
    }
  }

  /** Merging keeps every pointee of the receiving vector, and adds those of the merged one. */
  lemma {:induction false} MergedAllMeaning(fs: FactVec, ns: FactVec, v: Variable)
    ensures ToSet(Pointees(fs, v)) <= ToSet(Pointees(MergedAll(fs, ns), v))
    ensures ToSet(Pointees(ns, v)) <= ToSet(Pointees(MergedAll(fs, ns), v))
    ensures Has(MergedAll(fs, ns), v) <==> Has(fs, v) || Has(ns, v)
    decreases |ns|
  {
    if ns != [] {
      var n := ns[0];
      MergedMeaning(fs, n, v);
      MergedAllMeaning(Merged(fs, n), ns[1..], v);
      var key := PointTo(v, []);
      assert RelatedIndex(ns, key) == if Related(n, key) then 0 else 1 + RelatedIndex(ns[1..], key);
    }
  }

  lemma SameFactsLookup(fs: FactVec, gs: FactVec, v: Variable)
    requires SameFactsSpec(fs, gs) && WellFormed(gs)
    ensures Has(fs, v) ==> Has(gs, v)
    ensures ToSet(Pointees(fs, v)) <= ToSet(Pointees(gs, v))
  {
    var key := PointTo(v, []);
    var i := RelatedIndex(fs, key);
    if i < |fs| {
      assert HasEqual(gs, fs[i]);
      var k :| 0 <= k < |gs| && EqualFact(fs[i], gs[k]);
      forall j | 0 <= j < k ensures !Related(gs[j], key) { assert !Related(gs[j], gs[k]); }
      RelatedIndexUnique(gs, key, k);
    }
  }
}
