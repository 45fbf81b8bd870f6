/** Merging the facts of incoming edges, and why repeated merging comes to an end. */
module FixedPoint {
  import opened Collections
  import opened Variables
  import opened Facts
  import opened PointsTo
  import opened Expressions
  import opened ExprSound
  import opened Scopes
  import opened Analysis

  // ---------- back edges ----------

  function MergedSources(fs: FactVec, srcs: seq<nat>, fo: FactMap): FactVec
    decreases |srcs|
  {
    if srcs == [] then fs else MergedSources(MergedAll(fs, At(fo, srcs[0])), srcs[1..], fo)
  }

  /** Recorded facts are either absent or the facts of the scope. */
  ghost predicate RecordOk(fs: FactVec, scope: set<Variable>) {
    fs == [] || FactsOk(fs, scope)
  }

  ghost predicate SourcesOk(srcs: seq<nat>, fo: FactMap, scope: set<Variable>) {
    forall id :: id in srcs ==> RecordOk(At(fo, id), scope)
  }

  /** After the merge the facts are above what they were and above every incoming edge. */
  lemma {:induction false} MergedSourcesMeaning(fs: FactVec, srcs: seq<nat>, fo: FactMap, scope: set<Variable>)
    requires FactsOk(fs, scope) && SourcesOk(srcs, fo, scope)
    ensures FactsOk(MergedSources(fs, srcs, fo), scope)
    ensures Below(fs, MergedSources(fs, srcs, fo), scope)
    ensures forall id :: id in srcs ==> Below(At(fo, id), MergedSources(fs, srcs, fo), scope)
    decreases |srcs|
  {
    if srcs != [] {
      var jump := At(fo, srcs[0]);
      var next := MergedAll(fs, jump);
      assert srcs[0] in srcs && RecordOk(jump, scope);
      MergedAllOk(fs, jump, scope);
      MergedSourcesMeaning(next, srcs[1..], fo, scope);
      var out := MergedSources(fs, srcs, fo);
      forall s: Store | Start(s, scope, fs) ensures Covers(out, s) {
        MergeCovers(fs, jump, s);
        assert Start(s, scope, next);
      }
      forall s: Store | Start(s, scope, jump) ensures Covers(out, s) {
        MergeCovers(fs, jump, s);
        assert Start(s, scope, next);
      }
      forall id | id in srcs ensures Below(At(fo, id), out, scope) {
        assert id == srcs[0] || id in srcs[1..];
      }
    }
  }

  // ---------- progress in a finite lattice ----------

  ghost function Graph(fs: FactVec): set<(Variable, Variable)> {
    set f, p | f in fs && f.PointTo? && p in f.pts :: (f.v, p)
  }

  ghost function Universe(scope: set<Variable>): set<(Variable, Variable)> {
    set v, p | v in PtrVars(scope) && p in Colls(scope) + {NullPtr, GarbagePtr} :: (v, p)
  }

  /** How much the facts of a scope can still grow. */
  ghost function Slack(fs: FactVec, scope: set<Variable>): int {
    |Universe(scope)| - |Graph(fs)|
  }

  lemma GraphBounded(fs: FactVec, scope: set<Variable>)
    requires Scoped(fs, scope)
    ensures Graph(fs) <= Universe(scope) && Slack(fs, scope) >= 0
  {
    forall v, p | (v, p) in Graph(fs) ensures (v, p) in Universe(scope) {
      var f :| f in fs && f.PointTo? && f.v == v && p in f.pts;
      assert FactScoped(f, scope);
      assert PointeeOk(p, f.v.Level(), scope);
    }
    SubsetCard(Graph(fs), Universe(scope));
  }

  /** Merging one fact about a known variable either changes nothing or adds a pointee. */
  lemma MergedGrows(fs: FactVec, n: Fact)
    requires WellFormed(fs) && n.PointTo? && NoDup(n.pts) && Has(fs, n.v)
    ensures Merged(fs, n) == fs || Graph(fs) < Graph(Merged(fs, n))
  {
    RelatedIndexSame(fs, n, PointTo(n.v, []));
    var i := RelatedIndex(fs, n);
    var r := Merged(fs, n);
    if !Imply(fs[i], n) {
      SubVarsIsSubset(n.pts, fs[i].pts);
      var p :| p in ToSet(n.pts) && p !in ToSet(fs[i].pts);
      AddVarsMembers(n.pts, fs[i].pts, p);
      assert r[i] in r && (n.v, p) in Graph(r);
      assert (n.v, p) !in Graph(fs) by { OnlyFactAbout(fs, i, p); }
      GraphKept(fs, n, i);
    }
  }

  lemma OnlyFactAbout(fs: FactVec, i: nat, p: Variable)
    requires WellFormed(fs) && i < |fs| && fs[i].PointTo? && p !in fs[i].pts
    ensures (fs[i].v, p) !in Graph(fs)
  {
    forall f | f in fs && f.PointTo? && f.v == fs[i].v ensures p !in f.pts {
      var j :| 0 <= j < |fs| && fs[j] == f;
      assert Related(fs[j], fs[i]) && Related(fs[i], fs[j]);
      assert j == i;
    }
  }

  lemma GraphKept(fs: FactVec, n: Fact, i: nat)
    requires i < |fs| && n.PointTo? && Related(fs[i], n)
    ensures Graph(fs) <= Graph(fs[i := Join(n, fs[i])])
  {
    var r := fs[i := Join(n, fs[i])];
    forall v, p | (v, p) in Graph(fs) ensures (v, p) in Graph(r) {
      var f :| f in fs && f.PointTo? && f.v == v && p in f.pts;
      var j :| 0 <= j < |fs| && fs[j] == f;
      if j == i { AddVarsMembers(n.pts, fs[i].pts, p); }
      assert r[j] in r && r[j].v == v && p in r[j].pts;
    }
  }

  lemma {:induction false} MergedAllGrows(fs: FactVec, ns: FactVec, scope: set<Variable>)
    requires FactsOk(fs, scope) && (forall f :: f in ns ==> FactScoped(f, scope) && FactNoDup(f))
    ensures MergedAll(fs, ns) == fs || Graph(fs) < Graph(MergedAll(fs, ns))
    decreases |ns|
  {
    if ns != [] {
      assert ns[0] in ns;
      MergedGrows(fs, ns[0]);
      var next := Merged(fs, ns[0]);
      MergedWellFormed(fs, ns[0]);
      MergedScoped(fs, ns[0], scope);
      forall v | v in PtrVars(scope) ensures Has(next, v) { MergedMeaning(fs, ns[0], v); }
      MergedAllGrows(next, ns[1..], scope);
    }
  }

  /** Merging all back edges changes nothing, or strictly grows the facts. */
  lemma {:induction false} MergedSourcesGrows(fs: FactVec, srcs: seq<nat>, fo: FactMap, scope: set<Variable>)
    requires FactsOk(fs, scope) && SourcesOk(srcs, fo, scope)
    ensures MergedSources(fs, srcs, fo) == fs || Graph(fs) < Graph(MergedSources(fs, srcs, fo))
    decreases |srcs|
  {
    if srcs != [] {
      var jump := At(fo, srcs[0]);
      assert srcs[0] in srcs && RecordOk(jump, scope);
      forall f | f in jump ensures FactScoped(f, scope) && FactNoDup(f) {}
      MergedAllGrows(fs, jump, scope);
      MergedAllOk(fs, jump, scope);
      MergedSourcesGrows(MergedAll(fs, jump), srcs[1..], fo, scope);
    }
  }

  lemma MergedSourcesSlack(fs: FactVec, srcs: seq<nat>, fo: FactMap, scope: set<Variable>)
    requires FactsOk(fs, scope) && SourcesOk(srcs, fo, scope)
    ensures 0 <= Slack(MergedSources(fs, srcs, fo), scope) <= Slack(fs, scope)
  {
    MergedSourcesMeaning(fs, srcs, fo, scope);
    MergedSourcesGrows(fs, srcs, fo, scope);
    GraphBounded(MergedSources(fs, srcs, fo), scope);
    SubsetCard(Graph(fs), Graph(MergedSources(fs, srcs, fo)));
  }

  /** A pass of the fixed-point iteration that does not stop has strictly larger input facts. */
  lemma PassMakesProgress(fs: FactVec, srcs: seq<nat>, fo: FactMap, scope: set<Variable>)
    requires FactsOk(fs, scope) && SourcesOk(srcs, fo, scope)
    requires !SameFactsSpec(MergedSources(fs, srcs, fo), fs)
    ensures 0 <= Slack(MergedSources(fs, srcs, fo), scope) < Slack(fs, scope)
  {
    var next := MergedSources(fs, srcs, fo);
    MergedSourcesMeaning(fs, srcs, fo, scope);
    MergedSourcesGrows(fs, srcs, fo, scope);
    if next == fs {
      forall i | 0 <= i < |fs| ensures HasEqual(fs, fs[i]) { assert EqualFact(fs[i], fs[i]); }
    }
    GraphBounded(fs, scope);
    GraphBounded(next, scope);
    if Graph(fs) < Graph(next) {
      SubsetCard(Graph(fs), Graph(next));
    }
  }

  lemma SameFactsBelow(fs: FactVec, gs: FactVec, scope: set<Variable>)
    requires SameFactsSpec(fs, gs) && WellFormed(gs)
    ensures Below(fs, gs, scope)
  {
    forall s: Store | Start(s, scope, fs) ensures Covers(gs, s) {
      forall c | c in s && c.IsPointer() ensures CoveredAt(gs, s, c) {
        assert CoveredAt(fs, s, c);
        SameFactsLookup(fs, gs, c.Coll());
        InToSet(Pointees(fs, c.Coll()), s[c].target.Coll());
        InToSet(Pointees(gs, c.Coll()), s[c].target.Coll());
      }
    }
  }

  // ---------- jumps out of a loop ----------

  /** The fact a jump brings for each variable of `fs`; skipping an initialiser leaves garbage. */
  function JumpFacts(fs: FactVec, jump: FactVec): FactVec {
    seq(|fs|, i requires 0 <= i < |fs| => JumpFact(fs[i], jump))
  }

  function JumpFact(f: Fact, jump: FactVec): Fact {
    var i := RelatedIndex(jump, f);
    if i < |jump| then jump[i]
    else if f.PointTo? then PointTo(f.v, [GarbagePtr])
    else UnionWrite(f.v, BOTTOM)
  }

  function JumpMerged(fs: FactVec, jump: FactVec): FactVec {
    MergedAll(fs, JumpFacts(fs, jump))
  }

  function JumpMergedAll(fs: FactVec, srcs: seq<nat>, fo: FactMap): FactVec
    decreases |srcs|
  {
    if srcs == [] then fs else JumpMergedAll(JumpMerged(fs, At(fo, srcs[0])), srcs[1..], fo)
  }

  /** Merging a fact related to number `i` keeps what every fact is about. */
  lemma MergedKeepsAll(fs: FactVec, n: Fact, i: nat)
    requires i < |fs| && Related(fs[i], n)
    ensures |Merged(fs, n)| == |fs| && forall k :: 0 <= k < |fs| ==> Related(Merged(fs, n)[k], fs[k])
  {
    RelatedIndexFirst(fs, n);
  }

  /** `FactMgr::merge_jump_facts` overwrites the facts while it walks over them. */
  method MergeJumpFacts(facts: FactVec, jumpFacts: FactVec) returns (r: FactVec, changed: bool)
    ensures r == JumpMerged(facts, jumpFacts)
    ensures !changed ==> r == facts
  {
    r, changed := facts, false;
    ghost var all := JumpFacts(facts, jumpFacts);
    var i := 0;
    while i < |r|
      invariant 0 <= i <= |r| == |facts|
      invariant forall k :: 0 <= k < |r| ==> Related(r[k], facts[k])
      invariant MergedAll(facts, all) == MergedAll(r, all[i..])
      invariant !changed ==> r == facts
    {
      var j := FindRelatedFact(jumpFacts, r[i]);
      RelatedIndexSame(jumpFacts, r[i], facts[i]);
      var f := if j < |jumpFacts| then jumpFacts[j]
               else if r[i].PointTo? then PointTo(r[i].v, [GarbagePtr])
               else UnionWrite(r[i].v, BOTTOM);
      assert f == all[i] && all[i..][1..] == all[i + 1..];
      MergedKeepsAll(r, f, i);
      var c;
      r, c := MergeFact(r, f);
      if c { changed := true; }
      i := i + 1;
    }
  }

  lemma JumpMergedMeaning(fs: FactVec, jump: FactVec, scope: set<Variable>)
    requires FactsOk(fs, scope) && RecordOk(jump, scope)
    ensures FactsOk(JumpMerged(fs, jump), scope)
    ensures Below(fs, JumpMerged(fs, jump), scope) && Below(jump, JumpMerged(fs, jump), scope)
  {
    var ns := JumpFacts(fs, jump);
    JumpFactsScoped(fs, jump, scope);
    MergedAllOk(fs, ns, scope);
    forall s: Store | Start(s, scope, fs) ensures Covers(JumpMerged(fs, jump), s) { MergeCovers(fs, ns, s); }
    forall s: Store | Start(s, scope, jump) ensures Covers(JumpMerged(fs, jump), s) {
      forall c | c in s && c.IsPointer() ensures CoveredAt(ns, s, c) {
        assert CoveredAt(jump, s, c);
        assert c.Coll() in PtrVars(scope);
        JumpLookup(fs, jump, c.Coll());
      }
      MergeCovers(fs, ns, s);
    }
  }

  lemma JumpLookup(fs: FactVec, jump: FactVec, v: Variable)
    requires Has(fs, v) && Has(jump, v)
    ensures Has(JumpFacts(fs, jump), v) && Pointees(JumpFacts(fs, jump), v) == Pointees(jump, v)
  {
    var key := PointTo(v, []);
    var i := RelatedIndex(fs, key);
    var ns := JumpFacts(fs, jump);
    RelatedIndexFirst(fs, key);
    forall k | 0 <= k < |fs| ensures Related(ns[k], fs[k]) {}
    RelatedIndexUnique(ns, key, i);
    RelatedIndexSame(jump, fs[i], key);
  }

  lemma JumpFactsScoped(fs: FactVec, jump: FactVec, scope: set<Variable>)
    requires FactsOk(fs, scope) && RecordOk(jump, scope)
    ensures WellFormed(JumpFacts(fs, jump)) && Scoped(JumpFacts(fs, jump), scope)
  {
    var ns := JumpFacts(fs, jump);
    forall k | 0 <= k < |fs| ensures Related(ns[k], fs[k]) && FactNoDup(ns[k]) && FactScoped(ns[k], scope) {
      assert fs[k] in fs && FactScoped(fs[k], scope);
      var i := RelatedIndex(jump, fs[k]);
      if i < |jump| { assert jump[i] in jump; }
    }
    forall i, j | 0 <= i < j < |ns| ensures !Related(ns[i], ns[j]) { assert !Related(fs[i], fs[j]); }
  }

  lemma {:induction false} JumpMergedAllMeaning(fs: FactVec, srcs: seq<nat>, fo: FactMap, scope: set<Variable>)
    requires FactsOk(fs, scope) && SourcesOk(srcs, fo, scope)
    ensures FactsOk(JumpMergedAll(fs, srcs, fo), scope)
    ensures Below(fs, JumpMergedAll(fs, srcs, fo), scope)
    ensures forall id :: id in srcs ==> Below(At(fo, id), JumpMergedAll(fs, srcs, fo), scope)
    decreases |srcs|
  {
    if srcs != [] {
      var jump := At(fo, srcs[0]);
      var next := JumpMerged(fs, jump);
      assert srcs[0] in srcs && RecordOk(jump, scope);
      JumpMergedMeaning(fs, jump, scope);
      JumpMergedAllMeaning(next, srcs[1..], fo, scope);
      var out := JumpMergedAll(fs, srcs, fo);
      BelowTransitive(fs, next, out, scope);
      BelowTransitive(jump, next, out, scope);
      forall id | id in srcs ensures Below(At(fo, id), out, scope) {
        assert id == srcs[0] || id in srcs[1..];
      }
    }
  }

  lemma BelowTransitive(fs: FactVec, gs: FactVec, hs: FactVec, scope: set<Variable>)
    requires Below(fs, gs, scope) && Below(gs, hs, scope)
    ensures Below(fs, hs, scope)
  {
    forall s: Store | Start(s, scope, fs) ensures Covers(hs, s) { assert Start(s, scope, gs); }
  }
}
