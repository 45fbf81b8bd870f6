/** Entering and leaving blocks. The facts of new locals cover the store in which the locals have
    been allocated; the facts without them cover the store in which they are dead again, where
    every pointer to one of them has become a pointer to dead storage. */
module ScopeSound {
  import opened Collections
  import opened Variables
  import opened Facts
  import opened PointsTo
  import opened Expressions
  import opened CGContexts
  import opened ExprSound
  import opened Scopes
  import opened Statements

  // ---------- facts for new variables ----------

  function InitPointee(i: Init): Variable {
    match i
    case Uninit => GarbagePtr
    case Null => NullPtr
    case AddrOf(w) => w.Coll()
  }

  /** The pointees of all initialisers, merged in order. */
  function InitFacts(v: Variable, inits: seq<Init>): FactVec {
    if inits == [] then []
    else Merged(InitFacts(v, inits[..|inits| - 1]), PointTo(v, [InitPointee(inits[|inits| - 1])]))
  }

  function AddedMissing(fs: FactVec, more: FactVec): FactVec
    decreases |more|
  {
    if more == [] then fs
    else AddedMissing(if RelatedIndex(fs, more[0]) < |fs| then fs else fs + [more[0]], more[1..])
  }

  function AddedLocal(fs: FactVec, d: Decl): FactVec {
    if d.v.Level() == 0 then fs else AddedMissing(fs, InitFacts(d.v, d.inits))
  }

  function AddedLocals(fs: FactVec, ds: seq<Decl>): FactVec
    decreases |ds|
  {
    if ds == [] then fs else AddedLocals(AddedLocal(fs, ds[0]), ds[1..])
  }

  /** `FactMgr::add_new_var_fact` together with `Fact::abstract_fact_for_var_init`. */
  method AddNewVarFact(d: Decl, facts: FactVec) returns (r: FactVec)
    ensures r == AddedLocal(facts, d)
  {
    r := facts;
    if d.v.Level() == 0 { return; }
    var news := [];
    var i := 0;
    while i < |d.inits|
      invariant 0 <= i <= |d.inits| && news == InitFacts(d.v, d.inits[..i])
    {
      assert d.inits[..i + 1][..i] == d.inits[..i];
      var changed;
      news, changed := MergeFact(news, PointTo(d.v, [InitPointee(d.inits[i])]));
      i := i + 1;
    }
    assert d.inits[..|d.inits|] == d.inits;
    var k := 0;
    while k < |news|
      invariant 0 <= k <= |news| && AddedMissing(facts, news) == AddedMissing(r, news[k..])
    {
      assert news[k..][1..] == news[k + 1..];
      var at := FindRelatedFact(r, news[k]);
      if at == |r| { r := r + [news[k]]; }
      k := k + 1;
    }
  }

  method AddLocals(ds: seq<Decl>, facts: FactVec) returns (r: FactVec)
    ensures r == AddedLocals(facts, ds)
  {
    r := facts;
    var i := 0;
    while i < |ds|
      invariant 0 <= i <= |ds| && AddedLocals(facts, ds) == AddedLocals(r, ds[i..])
    {
      assert ds[i..][1..] == ds[i + 1..];
      r := AddNewVarFact(ds[i], r);
      i := i + 1;
    }
  }

  /** The one fact about a new variable. */
  function LocalFact(d: Decl): (f: Fact)
    requires d.inits != []
    ensures f.PointTo? && f.v == d.v
  {
    InitFactsShape(d.v, d.inits);
    InitFacts(d.v, d.inits)[0]
  }

  lemma {:induction false} InitFactsShape(v: Variable, inits: seq<Init>)
    requires inits != []
    ensures |InitFacts(v, inits)| == 1 && InitFacts(v, inits)[0].PointTo? && InitFacts(v, inits)[0].v == v
    ensures NoDup(InitFacts(v, inits)[0].pts)
    decreases |inits|
  {
    var n := |inits| - 1;
    if n > 0 {
      InitFactsShape(v, inits[..n]);
      InitFactsStep(v, inits);
      AddVarsMeaning([InitPointee(inits[n])], InitFacts(v, inits[..n])[0].pts);
    } else {
      assert InitFacts(v, inits[..0]) == [];
    }
  }

  lemma InitFactsStep(v: Variable, inits: seq<Init>)
    requires |inits| > 1
    requires var rest := InitFacts(v, inits[..|inits| - 1]); |rest| == 1 && rest[0].PointTo? && rest[0].v == v
    ensures var rest := InitFacts(v, inits[..|inits| - 1]);
      InitFacts(v, inits) == rest
      || InitFacts(v, inits) == [PointTo(v, AddVars([InitPointee(inits[|inits| - 1])], rest[0].pts))]
    ensures var rest := InitFacts(v, inits[..|inits| - 1]);
      InitFacts(v, inits) == rest ==> InitPointee(inits[|inits| - 1]) in rest[0].pts
  {
    var rest := InitFacts(v, inits[..|inits| - 1]);
    var f := PointTo(v, [InitPointee(inits[|inits| - 1])]);
    assert RelatedIndex(rest, f) == 0;
    if Imply(rest[0], f) {
      assert f.pts[0] in f.pts;
    } else {
      assert rest[0 := Join(f, rest[0])] == [Join(f, rest[0])];
      AddVarsMembers(f.pts, rest[0].pts, f.pts[0]);
    }
  }

  /** A new variable may point to what its initialisers say, and to nothing else. */
  lemma {:induction false} InitFactsMembers(v: Variable, inits: seq<Init>, p: Variable)
    requires inits != []
    ensures |InitFacts(v, inits)| == 1 && InitFacts(v, inits)[0].PointTo?
    ensures p in InitFacts(v, inits)[0].pts <==> exists i :: 0 <= i < |inits| && p == InitPointee(inits[i])
    decreases |inits|
  {
    InitFactsShape(v, inits);
    var n := |inits| - 1;
    if n > 0 {
      var rest := inits[..n];
      InitFactsMembers(v, rest, p);
      InitFactsShape(v, rest);
      InitFactsStep(v, inits);
      AddVarsMembers([InitPointee(inits[n])], InitFacts(v, rest)[0].pts, p);
      if i :| 0 <= i < |inits| && p == InitPointee(inits[i]) {
        assert i < n ==> rest[i] == inits[i];
      }
    } else {
      assert InitFacts(v, inits) == [PointTo(v, [InitPointee(inits[0])])] by { assert inits[..0] == []; }
    }
  }

  // ---------- the facts of a scope ----------

  function LocalFacts(ds: seq<Decl>): FactVec
    requires forall i :: 0 <= i < |ds| ==> ds[i].inits != []
  {
    if ds == [] then []
    else (if ds[0].v.Level() == 0 then [] else [LocalFact(ds[0])]) + LocalFacts(ds[1..])
  }

  ghost predicate NoFactAbout(fs: FactVec, vs: seq<Variable>) {
    forall f :: f in fs ==> f.v !in vs
  }

  ghost predicate DeclsInit(ds: seq<Decl>) {
    forall i :: 0 <= i < |ds| ==> ds[i].inits != []
  }

  lemma AddedLocalIsAppend(fs: FactVec, d: Decl)
    requires d.inits != [] && d.v.Level() > 0 && forall f :: f in fs ==> f.v != d.v
    ensures AddedLocal(fs, d) == fs + [LocalFact(d)]
  {
    var f := LocalFact(d);
    InitFactsShape(d.v, d.inits);
    assert InitFacts(d.v, d.inits) == [f];
    forall j | 0 <= j < |fs| ensures !Related(fs[j], f) { assert fs[j] in fs; }
    RelatedIndexUnique(fs, f, |fs|);
    AddedMissingOne(fs, f);
  }

  lemma {:induction false} AddedLocalsIsAppend(fs: FactVec, ds: seq<Decl>)
    requires DeclsInit(ds) && NoDup(DeclVars(ds)) && NoFactAbout(fs, DeclVars(ds))
    ensures AddedLocals(fs, ds) == fs + LocalFacts(ds)
    decreases |ds|
  {
    if ds != [] {
      var first := FirstFacts(ds[0]);
      FirstLocalIsAppend(fs, ds);
      AddedLocalsIsAppend(fs + first, ds[1..]);
      assert LocalFacts(ds) == first + LocalFacts(ds[1..]);
      Reassociate(fs, first, LocalFacts(ds[1..]));
    }
  }

  function FirstFacts(d: Decl): FactVec
    requires d.inits != []
  {
    if d.v.Level() == 0 then [] else [LocalFact(d)]
  }

  lemma FirstLocalIsAppend(fs: FactVec, ds: seq<Decl>)
    requires ds != [] && DeclsInit(ds) && NoDup(DeclVars(ds)) && NoFactAbout(fs, DeclVars(ds))
    ensures AddedLocal(fs, ds[0]) == fs + FirstFacts(ds[0])
    ensures DeclsInit(ds[1..]) && NoDup(DeclVars(ds[1..])) && NoFactAbout(fs + FirstFacts(ds[0]), DeclVars(ds[1..]))
  {
    var d, rest := ds[0], ds[1..];
    assert DeclVars(ds) == [d.v] + DeclVars(rest) && d.v in DeclVars(ds);
    if d.v.Level() > 0 { AddedLocalIsAppend(fs, d); }
    forall f | f in fs + FirstFacts(d) ensures f.v !in DeclVars(rest) {
      assert f in fs ==> f.v !in DeclVars(ds);
    }
  }

  lemma AddedMissingOne(fs: FactVec, f: Fact)
    requires RelatedIndex(fs, f) == |fs|
    ensures AddedMissing(fs, [f]) == fs + [f]
  {
    assert [f][1..] == [];
    assert AddedMissing(fs + [f], []) == fs + [f];
  }

  lemma {:induction false} LocalFactsElements(ds: seq<Decl>, f: Fact)
    requires DeclsInit(ds) && f in LocalFacts(ds)
    ensures exists i :: 0 <= i < |ds| && ds[i].v.Level() > 0 && f == LocalFact(ds[i])
    decreases |ds|
  {
    if ds[0].v.Level() > 0 && f == LocalFact(ds[0]) {
    } else {
      assert f in LocalFacts(ds[1..]);
      LocalFactsElements(ds[1..], f);
      var i :| 0 <= i < |ds[1..]| && ds[1..][i].v.Level() > 0 && f == LocalFact(ds[1..][i]);
      assert ds[i + 1] == ds[1..][i];
    }
  }

  lemma {:induction false} LocalFactsLookup(ds: seq<Decl>, i: nat)
    requires DeclsInit(ds) && NoDup(DeclVars(ds)) && i < |ds| && ds[i].v.Level() > 0
    ensures Has(LocalFacts(ds), ds[i].v) && Pointees(LocalFacts(ds), ds[i].v) == LocalFact(ds[i]).pts
    decreases |ds|
  {
    var rest := LocalFacts(ds[1..]);
    assert [] + rest == rest;
    InitFactsShape(ds[0].v, ds[0].inits);
    InitFactsShape(ds[i].v, ds[i].inits);
    LookupCons(LocalFact(ds[0]), rest, ds[i].v);
    if i > 0 {
      assert DeclVars(ds)[0] != DeclVars(ds)[i];
      assert DeclVars(ds[1..]) == DeclVars(ds)[1..];
      LocalFactsLookup(ds[1..], i - 1);
    }
  }

  lemma {:induction false} LookupAppend(fs: FactVec, gs: FactVec, w: Variable)
    ensures Has(fs + gs, w) <==> Has(fs, w) || Has(gs, w)
    ensures Pointees(fs + gs, w) == if Has(fs, w) then Pointees(fs, w) else Pointees(gs, w)
    decreases |fs|
  {
    if fs == [] {
      assert fs + gs == gs;
    } else {
      LookupAppend(fs[1..], gs, w);
      assert fs + gs == [fs[0]] + (fs[1..] + gs) && fs == [fs[0]] + fs[1..];
      LookupCons(fs[0], fs[1..] + gs, w);
      LookupCons(fs[0], fs[1..], w);
    }
  }

  lemma {:induction false} LocalFactsWellFormed(ds: seq<Decl>)
    requires DeclsInit(ds) && NoDup(DeclVars(ds))
    ensures WellFormed(LocalFacts(ds))
    ensures forall f :: f in LocalFacts(ds) ==> f.v in DeclVars(ds)
    decreases |ds|
  {
    if ds != [] {
      var rest := LocalFacts(ds[1..]);
      assert DeclVars(ds) == [ds[0].v] + DeclVars(ds[1..]);
      LocalFactsWellFormed(ds[1..]);
      InitFactsShape(ds[0].v, ds[0].inits);
      assert [] + rest == rest;
      AppendWellFormed([LocalFact(ds[0])], rest);
    }
  }

  lemma AppendWellFormed(fs: FactVec, gs: FactVec)
    requires WellFormed(fs) && WellFormed(gs)
    requires forall f, g :: f in fs && g in gs ==> f.v != g.v
    ensures WellFormed(fs + gs)
  {
    var hs := fs + gs;
    forall i, j | 0 <= i < j < |hs| ensures !Related(hs[i], hs[j]) {
      if i < |fs| <= j { assert fs[i] in fs && gs[j - |fs|] in gs; }
    }
  }

  // ---------- entering a block ----------

  /** The facts on entry of a block are again exactly those of the scope. */
  lemma EnterFacts(fs: FactVec, b: Block, scope: set<Variable>)
    requires FactsOk(fs, scope) && ScopeOk(scope) && LocalsOk(b, scope)
    ensures ScopeOk(scope + LocalCells(b)) && NoFactAbout(fs, DeclVars(b.locals)) && DeclsInit(b.locals)
    ensures FactsOk(AddedLocals(fs, b.locals), scope + LocalCells(b))
  {
    var ds, vs := b.locals, DeclVars(b.locals);
    var scope' := scope + LocalCells(b);
    forall i | 0 <= i < |ds| ensures ds[i].inits != [] { assert DeclOk(ds[i], scope'); }
    forall f | f in fs ensures f.v !in vs { NotALocal(f, b, scope); }
    AddedLocalsIsAppend(fs, ds);
    LocalFactsWellFormed(ds);
    AppendWellFormed(fs, LocalFacts(ds));
    forall f | f in fs ensures FactScoped(f, scope') {
      assert FactScoped(f, scope);
      assert PtrVars(scope) <= PtrVars(scope') && Colls(scope) <= Colls(scope');
    }
    forall f | f in LocalFacts(ds) ensures FactScoped(f, scope') {
      LocalFactsElements(ds, f);
      var i :| 0 <= i < |ds| && ds[i].v.Level() > 0 && f == LocalFact(ds[i]);
      LocalFactScoped(b, scope, i);
    }
    forall v | v in PtrVars(scope') ensures Has(fs + LocalFacts(ds), v) {
      LookupAppend(fs, LocalFacts(ds), v);
      if v !in PtrVars(scope) {
        var c :| c in scope' && c.IsPointer() && c.Coll() == v;
        assert c in LocalCells(b);
        var i :| 0 <= i < |ds| && vs[i] == v;
        CollOfCell(c);
        LocalFactsLookup(ds, i);
      }
    }
  }

  lemma NotALocal(f: Fact, b: Block, scope: set<Variable>)
    requires FactScoped(f, scope) && ScopeOk(scope) && LocalsOk(b, scope)
    ensures f.v !in DeclVars(b.locals)
  {
    var c :| c in scope && c.IsPointer() && c.Coll() == f.v;
    assert c !in LocalCells(b);
  }

  lemma LocalFactScoped(b: Block, scope: set<Variable>, i: nat)
    requires LocalsOk(b, scope) && ScopeOk(scope) && i < |b.locals| && b.locals[i].v.Level() > 0 && b.locals[i].inits != []
    ensures FactScoped(LocalFact(b.locals[i]), scope + LocalCells(b))
  {
    var d := b.locals[i];
    var scope' := scope + LocalCells(b);
    assert DeclOk(d, scope');
    InitFactsShape(d.v, d.inits);
    var c := if d.v.Plain? then d.v else Item(d.v.id, d.v.level, d.v.size, 0);
    assert c.IsCell() && c.Coll() == d.v && d.v in DeclVars(b.locals);
    assert c in scope';
    forall p | p in LocalFact(d).pts ensures PointeeOk(p, d.v.Level(), scope') {
      InitFactsMembers(d.v, d.inits, p);
      var k :| 0 <= k < |d.inits| && p == InitPointee(d.inits[k]);
      assert InitOk(d.inits[k], d.v.Level(), scope');
      if d.inits[k].AddrOf? { CollOfCell(d.inits[k].w); }
    }
  }

  lemma {:induction false} AllocAt(s: Store, ds: seq<Decl>, c: Variable)
    requires NoDup(DeclVars(ds))
    ensures c in Alloc(s, ds) <==> c in s || c in CellsOf(DeclVars(ds))
    ensures c in s && c !in CellsOf(DeclVars(ds)) ==> Alloc(s, ds)[c] == s[c]
    ensures forall i :: 0 <= i < |ds| && c in ds[i].v.Cells() ==> Alloc(s, ds)[c] == InitValue(ds[i], c)
    decreases |ds|
  {
    if ds != [] {
      var d, rest := ds[0], ds[1..];
      var s' := s + map x | x in d.v.Cells() :: InitValue(d, x);
      assert DeclVars(ds) == [d.v] + DeclVars(rest);
      AllocAt(s', rest, c);
      forall i | 0 <= i < |ds| && c in ds[i].v.Cells() ensures Alloc(s, ds)[c] == InitValue(ds[i], c) {
        if i > 0 {
          assert ds[i] == rest[i - 1];
        } else {
          assert c.Coll() == d.v && d.v == DeclVars(ds)[0];
          assert forall j :: 0 <= j < |rest| ==> DeclVars(rest)[j] == DeclVars(ds)[j + 1];
          assert c !in CellsOf(DeclVars(rest));
        }
      }
    }
  }

  /** The facts on entry of a block cover the store with the locals in it. */
  lemma EnterCovers(fs: FactVec, b: Block, s: Store)
    requires FactsOk(fs, s.Keys) && LocalsOk(b, s.Keys) && StoreOk(s) && Covers(fs, s)
    ensures var s' := Alloc(s, b.locals);
      StoreOk(s') && s'.Keys == s.Keys + LocalCells(b) && Covers(AddedLocals(fs, b.locals), s')
  {
    var ds, vs := b.locals, DeclVars(b.locals);
    var s' := Alloc(s, ds);
    var fs' := AddedLocals(fs, ds);
    assert ScopeOk(s.Keys) by { forall c | c in s ensures c.IsCell() { CellFacts(s, c); } }
    EnterFacts(fs, b, s.Keys);
    AddedLocalsIsAppend(fs, ds);
    forall c ensures c in s' <==> c in s || c in LocalCells(b) { AllocAt(s, ds, c); }
    assert s'.Keys == s.Keys + LocalCells(b);
    forall c | c in s' ensures CellOk(s', c) && (c.IsPointer() ==> CoveredAt(fs', s', c)) {
      AllocAt(s, ds, c);
      LookupAppend(fs, LocalFacts(ds), c.Coll());
      if c in s {
        CellFacts(s, c);
        assert c.IsPointer() ==> CoveredAt(fs, s, c);
      } else {
        var i :| 0 <= i < |ds| && vs[i] == c.Coll();
        assert c in ds[i].v.Cells();
        NewCellOk(b, s.Keys, i, c);
        if c.IsPointer() {
          CollOfCell(c);
          LocalFactsLookup(ds, i);
          NotInFacts(fs, vs, c.Coll());
        }
      }
    }
  }

  lemma NotInFacts(fs: FactVec, vs: seq<Variable>, v: Variable)
    requires NoFactAbout(fs, vs) && v in vs
    ensures !Has(fs, v)
  {
    forall j | 0 <= j < |fs| ensures !Related(fs[j], PointTo(v, [])) { assert fs[j] in fs; }
    RelatedIndexUnique(fs, PointTo(v, []), |fs|);
  }

  lemma NewCellOk(b: Block, scope: set<Variable>, i: nat, c: Variable)
    requires LocalsOk(b, scope) && i < |b.locals| && c in b.locals[i].v.Cells()
    ensures b.locals[i].inits != [] && HasType(InitValue(b.locals[i], c), c.Level(), scope + LocalCells(b))
    ensures c.IsPointer() ==> InitValue(b.locals[i], c).target.Coll() in LocalFact(b.locals[i]).pts
  {
    var d := b.locals[i];
    assert DeclOk(d, scope + LocalCells(b));
    CollOfCell(c);
    if c.IsPointer() {
      var k := d.pick(if c.Item? then c.idx else 0) % |d.inits|;
      assert InitOk(d.inits[k], d.v.Level(), scope + LocalCells(b));
      InitFactsMembers(d.v, d.inits, InitPointee(d.inits[k]));
    }
  }

  // ---------- leaving a block ----------

  /** Scope exit is sound: the facts that remain cover the store in which the variables are dead. */
  lemma ExitCovers(fs: FactVec, vs: seq<Variable>, s: Store)
    requires WellFormed(fs) && StoreOk(s) && Covers(fs, s) && forall v :: v in vs ==> !v.IsSpecial()
    ensures StoreOk(Kill(s, vs)) && Kill(s, vs).Keys == s.Keys - CellsOf(vs)
    ensures Covers(OutOfScope(fs, vs), Kill(s, vs))
  {
    var s' := Kill(s, vs);
    forall c ensures c in s' <==> c in s && c !in CellsOf(vs) {
      if c in s { CellFacts(s, c); }
    }
    forall c | c in s' ensures CellOk(s', c) && (c.IsPointer() ==> CoveredAt(OutOfScope(fs, vs), s', c)) {
      CellFacts(s, c);
      if c.IsPointer() {
        assert CoveredAt(fs, s, c);
        ScopeExitIsExact(fs, vs, c.Coll());
        InToSet(Pointees(fs, c.Coll()), s[c].target.Coll());
        InToSet(vs, s[c].target.Coll());
        InToSet(Pointees(OutOfScope(fs, vs), c.Coll()), s'[c].target.Coll());
        if s[c].target in s { CellFacts(s, s[c].target); }
      }
    }
  }

  lemma ExitFacts(fs: FactVec, vs: seq<Variable>, scope: set<Variable>)
    requires FactsOk(fs, scope) && ScopeOk(scope) && forall v :: v in vs ==> !v.IsSpecial()
    ensures FactsOk(OutOfScope(fs, vs), scope - CellsOf(vs)) && ScopeOk(scope - CellsOf(vs))
  {
    var fs', scope' := OutOfScope(fs, vs), scope - CellsOf(vs);
    ScopeExitIsExact(fs, vs, NullPtr);
    forall f | f in fs' ensures FactScoped(f, scope') {
      ExitFactScoped(fs, vs, scope, f);
    }
    forall v | v in PtrVars(scope') ensures Has(fs', v) {
      var c :| c in scope' && c.IsPointer() && c.Coll() == v;
      assert c.IsCell();
      ScopeExitIsExact(fs, vs, v);
    }
  }

  lemma ExitFactScoped(fs: FactVec, vs: seq<Variable>, scope: set<Variable>, f: Fact)
    requires FactsOk(fs, scope) && ScopeOk(scope) && (forall v :: v in vs ==> !v.IsSpecial()) && f in OutOfScope(fs, vs)
    ensures FactScoped(f, scope - CellsOf(vs))
  {
    var fs', scope' := OutOfScope(fs, vs), scope - CellsOf(vs);
    ScopeExitIsExact(fs, vs, f.v);
    DroppedAllSubset(fs, vs);
    forall g | g in DroppedAll(fs, vs) ensures g.PointTo? { assert FactScoped(g, scope); }
    MarkedAllPointTo(DroppedAll(fs, vs), vs);
    var i :| 0 <= i < |fs'| && fs'[i] == f;
    forall j | 0 <= j < i ensures !Related(fs'[j], PointTo(f.v, [])) { assert !Related(fs'[j], fs'[i]); }
    RelatedIndexUnique(fs', PointTo(f.v, []), i);
    assert Pointees(fs', f.v) == f.pts && Has(fs, f.v);
    var k := RelatedIndex(fs, PointTo(f.v, []));
    assert fs[k] in fs && FactScoped(fs[k], scope);
    StaysInScope(f.v, vs, scope);
    forall p | p in f.pts ensures PointeeOk(p, f.v.Level(), scope') {
      InToSet(f.pts, p);
      InToSet(Pointees(fs, f.v), p);
      InToSet(vs, p);
      if !p.IsSpecial() {
        assert PointeeOk(p, f.v.Level(), scope);
        var c :| c in scope && c.Coll() == p;
        assert c in scope';
      }
    }
  }

  lemma StaysInScope(v: Variable, vs: seq<Variable>, scope: set<Variable>)
    requires v in PtrVars(scope) && v !in vs && ScopeOk(scope)
    ensures v in PtrVars(scope - CellsOf(vs))
  {
    var c :| c in scope && c.IsPointer() && c.Coll() == v;
    assert c in scope - CellsOf(vs);
  }

  lemma {:induction false} MarkedAllPointTo(fs: FactVec, vs: seq<Variable>)
    requires forall f :: f in fs ==> f.PointTo?
    ensures forall f :: f in MarkedAll(fs, vs) ==> f.PointTo?
    decreases |vs|
  {
    if vs != [] { MarkedAllPointTo(MarkedEach(fs, vs[0]), vs[1..]); }
  }

  lemma {:induction false} DroppedAllSubset(fs: FactVec, vs: seq<Variable>)
    ensures forall f :: f in DroppedAll(fs, vs) ==> f in fs
    decreases |vs|
  {
    if vs != [] {
      DroppedSubset(fs, vs[0]);
      DroppedAllSubset(Dropped(fs, vs[0]), vs[1..]);
    }
  }

  lemma {:induction false} DroppedSubset(fs: FactVec, v: Variable)
    ensures forall f :: f in Dropped(fs, v) ==> f in fs
  {
    if fs != [] { DroppedSubset(fs[1..], v); }
  }
}
