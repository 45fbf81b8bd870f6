/** What the recorded effects of compound statements are made of. */
module RecordedEffects {
  // After a successful analysis the effect recorded for an `if`, a `for` or a block is exactly what
  // its parts do together. So surroundings that clash with the record of any part, however deep,
  // clash with the record of the whole.

  import opened Collections
  import opened Variables
  import opened Facts
  import opened Expressions
  import opened CGContexts
  import opened Statements
  import opened Analysis
  import opened AnalysisRuns

  /** `whole` reads and writes exactly what some of `parts` does. */
  ghost predicate AddsUp(whole: Effect, parts: seq<Effect>) {
    && (forall v :: v in whole.readVars <==> exists i :: 0 <= i < |parts| && v in parts[i].readVars)
    && forall v :: v in whole.writeVars <==> exists i :: 0 <= i < |parts| && v in parts[i].writeVars
  }

  /** What the visit of the first expression of `x` does. */
  function VisitedFirst(x: Stmt, fs: FactVec, around: Effect, noWrite: set<Variable>): Effect {
    match Visit(FirstExpr(x), fs, Context(around, NO_EFFECT, NO_EFFECT, noWrite))
    case None => NO_EFFECT
    case Some((_, c)) => c.stm
  }

  lemma AddsThree(whole: Effect, a: Effect, b: Effect, c: Effect)
    requires whole.readVars == a.readVars + b.readVars + c.readVars && whole.writeVars == a.writeVars + b.writeVars + c.writeVars
    ensures AddsUp(whole, [a, b, c])
  {
    var parts := [a, b, c];
    assert parts[0] == a && parts[1] == b && parts[2] == c;
  }

  lemma AddsTwo(whole: Effect, a: Effect, b: Effect)
    requires whole.readVars == a.readVars + b.readVars && whole.writeVars == a.writeVars + b.writeVars
    ensures AddsUp(whole, [a, b])
  {
    var parts := [a, b];
    assert parts[0] == a && parts[1] == b;
  }

  /** The record of an `if` is what its test and the records of both branches do. */
  lemma IfRecords(x: Stmt, lp: seq<Variable>, fs: FactVec, out: FactVec, r: Records, q: Records, around: Effect, noWrite: set<Variable>)
    requires x.If? && Distinct(x) && Ran(x, lp, fs, out, r, q, around, noWrite) && !Reusable(x, fs, r)
    ensures AddsUp(q.Effect(x.id), [VisitedFirst(x, fs, around, noWrite), q.Effect(x.thn.id), q.Effect(x.els.id)])
  {
    var m :| VisitRan(x, lp, fs, out, r, m, around, noWrite) && q == Storing(m, x, fs, out, lp);
    var eff := EffectOf(x.test, fs, around, noWrite);
    var o1, o2, r2, r3 := IfTaken(x, lp, fs, out, r, m, around, noWrite);
    assert x.thn.id in BlockIds(x.thn) && x.els.id in BlockIds(x.els);
    AddsThree(q.Effect(x.id), eff, r3.Effect(x.thn.id), r3.Effect(x.els.id));
  }

  /** The record of a `for` is what its initialiser and the record of its body do. */
  lemma ForRecords(x: Stmt, lp: seq<Variable>, fs: FactVec, out: FactVec, r: Records, q: Records, around: Effect, noWrite: set<Variable>)
    requires x.For? && Distinct(x) && Ran(x, lp, fs, out, r, q, around, noWrite) && !Reusable(x, fs, r)
    ensures AddsUp(q.Effect(x.id), [VisitedFirst(x, fs, around, noWrite), q.Effect(x.body.id)])
  {
    var m :| VisitRan(x, lp, fs, out, r, m, around, noWrite) && q == Storing(m, x, fs, out, lp);
    var eff := EffectOf(x.init, fs, around, noWrite);
    var o, r2 := ForTaken(x, lp, fs, out, r, m, around, noWrite);
    assert x.body.id in BlockIds(x.body);
    AddsTwo(q.Effect(x.id), eff, r2.Effect(x.body.id));
  }

  /** The record of any other statement is what its expression does. */
  lemma SimpleRecords(x: Stmt, lp: seq<Variable>, fs: FactVec, out: FactVec, r: Records, q: Records, around: Effect, noWrite: set<Variable>)
    requires !x.If? && !x.For? && Ran(x, lp, fs, out, r, q, around, noWrite) && !Reusable(x, fs, r)
    ensures q.Effect(x.id) == VisitedFirst(x, fs, around, noWrite)
  {}

  /** The records of the statements of `b`. */
  function StmtEffects(b: Block, r: Records): seq<Effect> {
    seq(|b.stms|, i requires 0 <= i < |b.stms| => r.Effect(b.stms[i].id))
  }

  ghost predicate BlockAddsUp(b: Block, r: Records) { AddsUp(r.Effect(b.id), StmtEffects(b, r)) }

  lemma {:induction false} EffectsOfAddUp(xs: seq<Stmt>, m: map<nat, Effect>)
    ensures forall v :: v in EffectsOf(xs, m).readVars <==> exists i :: 0 <= i < |xs| && v in EffectAt(m, xs[i].id).readVars
    ensures forall v :: v in EffectsOf(xs, m).writeVars <==> exists i :: 0 <= i < |xs| && v in EffectAt(m, xs[i].id).writeVars
  {
    if xs != [] {
      var k := |xs| - 1;
      EffectsOfAddUp(xs[..k], m);
      assert forall i :: 0 <= i < k ==> xs[..k][i] == xs[i];
    }
  }

  /** A pass leaves a block with what its statements do. */
  lemma PassRecords(b: Block, lp: seq<Variable>, head: FactVec, r: Records, q: Records, around: Effect, noWrite: set<Variable>)
    requires BlockDistinct(b) && PassRan(b, lp, head, r, q, around, noWrite)
    ensures BlockAddsUp(b, q)
  {
    var n := |b.stms|;
    var trail: seq<FactVec>, ms: seq<Records> :| Through(b, lp, head, trail, ms, r, around, noWrite) && |ms| == n + 1 && q == PassStored(ms[n], b, head, trail[n]);
    EffectsOfAddUp(b.stms, ms[n].stmEffect);
    forall i | 0 <= i < n ensures q.Effect(b.stms[i].id) == ms[n].Effect(b.stms[i].id) {
      assert b.stms[i].id in Ids(b.stms[i]);
    }
    var parts := StmtEffects(b, q);
    assert forall i :: 0 <= i < n ==> parts[i] == EffectAt(ms[n].stmEffect, b.stms[i].id);
  }

  /** So does a search that makes a pass; one that makes none leaves the record as it was. */
  lemma SearchRecords(b: Block, lp: seq<Variable>, once: bool, fs: FactVec, r: Records, q: Records, around: Effect, noWrite: set<Variable>)
    requires BlockDistinct(b) && SearchRan(b, lp, once, fs, r, q, around, noWrite)
    ensures q == r || BlockAddsUp(b, q)
    ensures once ==> BlockAddsUp(b, q)
  {
    var heads, rs := SearchTaken(b, lp, once, fs, r, q, around, noWrite);
    var n := |rs| - 1;
    if n > 0 {
      var k := n - 1;
      assert NextRound(b, lp, once && k == 0, heads[k], heads[k + 1], rs[k], rs[k + 1], around, noWrite);
      PassRecords(b, lp, heads[k], rs[k], q, around, noWrite);
    }
  }

  // ---------- records of others ----------

  ghost predicate SameEffects(r: Records, q: Records, ids: set<nat>) {
    forall id :: id in ids ==> r.Effect(id) == q.Effect(id)
  }

  /** Facts, effects and marks are recorded only for program points inside, and marks stay. */
  ghost predicate Outside(r: Records, q: Records, ids: set<nat>) {
    && r.cfgEdges == q.cfgEdges && r.visited <= q.visited <= r.visited + ids
    && forall id :: id !in ids ==>
         && r.Effect(id) == q.Effect(id) && (id in r.factsIn <==> id in q.factsIn)
         && At(r.factsIn, id) == At(q.factsIn, id) && At(r.factsOut, id) == At(q.factsOut, id)
  }

  lemma {:induction false} RanOutside(x: Stmt, lp: seq<Variable>, fs: FactVec, out: FactVec, r: Records, q: Records, around: Effect, noWrite: set<Variable>)
    requires Ran(x, lp, fs, out, r, q, around, noWrite)
    ensures Outside(r, q, Ids(x))
    decreases x, 1
  {
    if !Reusable(x, fs, r) {
      var m :| VisitRan(x, lp, fs, out, r, m, around, noWrite) && q == Storing(m, x, fs, out, lp);
      VisitRanOutside(x, lp, fs, out, r, m, around, noWrite);
    }
  }

  lemma {:induction false} VisitRanOutside(x: Stmt, lp: seq<Variable>, fs: FactVec, out: FactVec, r: Records, m: Records, around: Effect, noWrite: set<Variable>)
    requires VisitRan(x, lp, fs, out, r, m, around, noWrite)
    ensures Outside(r, m, Ids(x))
    decreases x, 0
  {
    var gs, r1 := FactsAfter(FirstExpr(x), fs, around, noWrite), r.Marked(x.id);
    match x
    case If(_, _, thn, els) =>
      var o1, o2, r2, r3 := IfTaken(x, lp, fs, out, r, m, around, noWrite);
      BlockRanOutside(thn, lp, gs, o1, r1, r2, around, noWrite);
      BlockRanOutside(els, lp, gs, o2, r2, r3, around, noWrite);
    case For(_, _, iv, _, _, body) =>
      var o, r2 := ForTaken(x, lp, fs, out, r, m, around, noWrite);
      BlockRanOutside(body, [], gs, o, r1, r2, around, noWrite + {iv});
    case _ =>
  }

  lemma {:induction false} BlockRanOutside(b: Block, lp: seq<Variable>, fs: FactVec, out: FactVec, r: Records, q: Records, around: Effect, noWrite: set<Variable>)
    requires BlockRan(b, lp, fs, out, r, q, around, noWrite)
    ensures Outside(r, q, BlockIds(b))
    decreases b, 4
  {
    var m :| SearchRan(b, lp, false, fs, r, m, around, noWrite) && out == At(m.factsOut, b.id) && q == m.Marked(b.id);
    var heads, rs := SearchTaken(b, lp, false, fs, r, m, around, noWrite);
    RoundsOutside(b, lp, false, fs, heads, rs, r, around, noWrite, |rs| - 1);
  }

  lemma {:induction false} RoundsOutside(b: Block, lp: seq<Variable>, once: bool, fs: FactVec, heads: seq<FactVec>, rs: seq<Records>, r: Records, around: Effect, noWrite: set<Variable>, n: nat)
    requires Rounds(b, lp, once, fs, heads, rs, r, around, noWrite) && n < |rs|
    ensures Outside(r, rs[n], BlockIds(b))
    decreases b, 3, n
  {
    if n > 0 {
      var k := n - 1;
      RoundsOutside(b, lp, once, fs, heads, rs, r, around, noWrite, k);
      assert NextRound(b, lp, once && k == 0, heads[k], heads[k + 1], rs[k], rs[k + 1], around, noWrite);
      PassOutside(b, lp, heads[k], rs[k], rs[n], around, noWrite);
    }
  }

  lemma {:induction false} PassOutside(b: Block, lp: seq<Variable>, head: FactVec, r: Records, q: Records, around: Effect, noWrite: set<Variable>)
    requires PassRan(b, lp, head, r, q, around, noWrite)
    ensures Outside(r, q, BlockIds(b))
    decreases b, 2
  {
    var n := |b.stms|;
    var trail, ms :| Through(b, lp, head, trail, ms, r, around, noWrite) && |ms| == n + 1 && q == PassStored(ms[n], b, head, trail[n]);
    ThroughOutside(b, lp, head, trail, ms, r, around, noWrite, n);
  }

  lemma {:induction false} ThroughOutside(b: Block, lp: seq<Variable>, head: FactVec, trail: seq<FactVec>, ms: seq<Records>, r: Records, around: Effect, noWrite: set<Variable>, n: nat)
    requires Through(b, lp, head, trail, ms, r, around, noWrite) && n < |ms|
    ensures Outside(r, ms[n], SeqIds(b.stms))
    decreases b, 1, n
  {
    if n > 0 {
      var k := n - 1;
      ThroughOutside(b, lp, head, trail, ms, r, around, noWrite, k);
      RanOutside(b.stms[k], DeclVars(b.locals) + lp, trail[k], trail[n], ms[k], ms[n], around, noWrite);
    }
  }

  // ---------- at every depth ----------

  predicate Part(e: Effect, whole: Effect) { e.readVars <= whole.readVars && e.writeVars <= whole.writeVars }

  /** The record of everything inside `x` is part of the record of what it stands in. */
  ghost predicate PartsWithin(x: Stmt, r: Records)
    decreases x
  {
    match x
    case If(id, _, thn, els) =>
      && Part(r.Effect(thn.id), r.Effect(id)) && Part(r.Effect(els.id), r.Effect(id))
      && BlockPartsWithin(thn, r) && BlockPartsWithin(els, r)
    case For(id, _, _, _, _, body) => Part(r.Effect(body.id), r.Effect(id)) && BlockPartsWithin(body, r)
    case _ => true
  }

  ghost predicate BlockPartsWithin(b: Block, r: Records)
    decreases b
  {
    forall i :: 0 <= i < |b.stms| ==> Part(r.Effect(b.stms[i].id), r.Effect(b.id)) && PartsWithin(b.stms[i], r)
  }

  ghost predicate EachPartsWithin(b: Block, r: Records) { forall i :: 0 <= i < |b.stms| ==> PartsWithin(b.stms[i], r) }

  lemma {:induction false} PartsFrame(x: Stmt, r: Records, q: Records)
    requires PartsWithin(x, r) && SameEffects(r, q, Ids(x))
    ensures PartsWithin(x, q)
    decreases x, 1
  {
    assert x.id in Ids(x);
    match x
    case If(_, _, thn, els) =>
      assert thn.id in BlockIds(thn) && els.id in BlockIds(els);
      BlockPartsFrame(thn, r, q);
      BlockPartsFrame(els, r, q);
    case For(_, _, _, _, _, body) =>
      assert body.id in BlockIds(body);
      BlockPartsFrame(body, r, q);
    case _ =>
  }

  lemma {:induction false} BlockPartsFrame(b: Block, r: Records, q: Records)
    requires BlockPartsWithin(b, r) && SameEffects(r, q, BlockIds(b))
    ensures BlockPartsWithin(b, q)
    decreases b, 0
  {
    assert b.id in BlockIds(b);
    forall i | 0 <= i < |b.stms| ensures Part(q.Effect(b.stms[i].id), q.Effect(b.id)) && PartsWithin(b.stms[i], q) {
      IdInSeq(b.stms, i);
      PartsFrame(b.stms[i], r, q);
    }
  }

  lemma IdInSeq(xs: seq<Stmt>, i: nat)
    requires i < |xs|
    ensures Ids(xs[i]) <= SeqIds(xs) && xs[i].id in Ids(xs[i])
  {}

  /** A successful analysis keeps this. */
  lemma {:induction false} RanKeepsParts(x: Stmt, lp: seq<Variable>, fs: FactVec, out: FactVec, r: Records, q: Records, around: Effect, noWrite: set<Variable>)
    requires Distinct(x) && PartsWithin(x, r) && Ran(x, lp, fs, out, r, q, around, noWrite)
    ensures PartsWithin(x, q)
    decreases x, 1
  {
    if !Reusable(x, fs, r) {
      var m :| VisitRan(x, lp, fs, out, r, m, around, noWrite) && q == Storing(m, x, fs, out, lp);
      VisitKeepsParts(x, lp, fs, out, r, m, around, noWrite);
      PartsFrame(x, m, q);
    }
  }

  lemma {:induction false} VisitKeepsParts(x: Stmt, lp: seq<Variable>, fs: FactVec, out: FactVec, r: Records, m: Records, around: Effect, noWrite: set<Variable>)
    requires Distinct(x) && PartsWithin(x, r) && VisitRan(x, lp, fs, out, r, m, around, noWrite)
    ensures PartsWithin(x, m)
    decreases x, 0
  {
    var gs, r1 := FactsAfter(FirstExpr(x), fs, around, noWrite), r.Marked(x.id);
    match x
    case If(_, _, thn, els) =>
      var o1, o2, r2, r3 := IfTaken(x, lp, fs, out, r, m, around, noWrite);
      assert thn.id in BlockIds(thn) && els.id in BlockIds(els);
      BlockPartsFrame(thn, r, r1);
      BlockKeepsParts(thn, lp, gs, o1, r1, r2, around, noWrite);
      BlockRanOutside(thn, lp, gs, o1, r1, r2, around, noWrite);
      BlockPartsFrame(els, r, r2);
      BlockKeepsParts(els, lp, gs, o2, r2, r3, around, noWrite);
      BlockRanOutside(els, lp, gs, o2, r2, r3, around, noWrite);
      BlockPartsFrame(thn, r2, m);
      BlockPartsFrame(els, r3, m);
    case For(_, _, iv, _, _, body) =>
      var o, r2 := ForTaken(x, lp, fs, out, r, m, around, noWrite);
      assert body.id in BlockIds(body);
      BlockPartsFrame(body, r, r1);
      BlockKeepsParts(body, [], gs, o, r1, r2, around, noWrite + {iv});
      BlockPartsFrame(body, r2, m);
    case _ =>
  }

  lemma {:induction false} BlockKeepsParts(b: Block, lp: seq<Variable>, fs: FactVec, out: FactVec, r: Records, q: Records, around: Effect, noWrite: set<Variable>)
    requires BlockDistinct(b) && BlockPartsWithin(b, r) && BlockRan(b, lp, fs, out, r, q, around, noWrite)
    ensures BlockPartsWithin(b, q)
    decreases b, 4
  {
    var m :| SearchRan(b, lp, false, fs, r, m, around, noWrite) && out == At(m.factsOut, b.id) && q == m.Marked(b.id);
    var heads, rs := SearchTaken(b, lp, false, fs, r, m, around, noWrite);
    RoundsKeepParts(b, lp, false, fs, heads, rs, r, around, noWrite, |rs| - 1);
    BlockPartsFrame(b, m, q);
  }

  lemma {:induction false} RoundsKeepParts(b: Block, lp: seq<Variable>, once: bool, fs: FactVec, heads: seq<FactVec>, rs: seq<Records>, r: Records, around: Effect, noWrite: set<Variable>, n: nat)
    requires BlockDistinct(b) && BlockPartsWithin(b, r) && Rounds(b, lp, once, fs, heads, rs, r, around, noWrite) && n < |rs|
    ensures BlockPartsWithin(b, rs[n])
    decreases b, 3, n
  {
    if n > 0 {
      var k := n - 1;
      RoundsKeepParts(b, lp, once, fs, heads, rs, r, around, noWrite, k);
      assert NextRound(b, lp, once && k == 0, heads[k], heads[k + 1], rs[k], rs[k + 1], around, noWrite);
      PassKeepsParts(b, lp, heads[k], rs[k], rs[n], around, noWrite);
    }
  }

  lemma {:induction false} PassKeepsParts(b: Block, lp: seq<Variable>, head: FactVec, r: Records, q: Records, around: Effect, noWrite: set<Variable>)
    requires BlockDistinct(b) && EachPartsWithin(b, r) && PassRan(b, lp, head, r, q, around, noWrite)
    ensures BlockPartsWithin(b, q)
    decreases b, 2
  {
    var n := |b.stms|;
    var trail, ms :| Through(b, lp, head, trail, ms, r, around, noWrite) && |ms| == n + 1 && q == PassStored(ms[n], b, head, trail[n]);
    ThroughKeepsParts(b, lp, head, trail, ms, r, around, noWrite, n);
    PassRecords(b, lp, head, r, q, around, noWrite);
    var parts := StmtEffects(b, q);
    forall i | 0 <= i < n ensures Part(q.Effect(b.stms[i].id), q.Effect(b.id)) && PartsWithin(b.stms[i], q) {
      IdInSeq(b.stms, i);
      assert parts[i] == q.Effect(b.stms[i].id);
      PartsFrame(b.stms[i], ms[n], q);
    }
  }

  lemma {:induction false} ThroughKeepsParts(b: Block, lp: seq<Variable>, head: FactVec, trail: seq<FactVec>, ms: seq<Records>, r: Records, around: Effect, noWrite: set<Variable>, n: nat)
    requires BlockDistinct(b) && EachPartsWithin(b, r) && Through(b, lp, head, trail, ms, r, around, noWrite) && n < |ms|
    ensures EachPartsWithin(b, ms[n])
    decreases b, 1, n
  {
    if n > 0 {
      var k := n - 1;
      ThroughKeepsParts(b, lp, head, trail, ms, r, around, noWrite, k);
      RanKeepsParts(b.stms[k], DeclVars(b.locals) + lp, trail[k], trail[n], ms[k], ms[n], around, noWrite);
      RanOutside(b.stms[k], DeclVars(b.locals) + lp, trail[k], trail[n], ms[k], ms[n], around, noWrite);
      forall i | 0 <= i < |b.stms| && i != k ensures PartsWithin(b.stms[i], ms[n]) {
        assert Ids(b.stms[i]) !! Ids(b.stms[k]);
        PartsFrame(b.stms[i], ms[k], ms[n]);
      }
    }
  }

  /** A new manager has no effects recorded. */
  lemma {:induction false} NoParts(x: Stmt, r: Records)
    requires r.stmEffect == map[]
    ensures PartsWithin(x, r)
    decreases x, 1
  {
    match x
    case If(_, _, thn, els) => NoBlockParts(thn, r); NoBlockParts(els, r);
    case For(_, _, _, _, _, body) => NoBlockParts(body, r);
    case _ =>
  }

  lemma {:induction false} NoBlockParts(b: Block, r: Records)
    requires r.stmEffect == map[]
    ensures BlockPartsWithin(b, r)
    decreases b, 0
  {
    forall i | 0 <= i < |b.stms| ensures PartsWithin(b.stms[i], r) { NoParts(b.stms[i], r); }
  }

  /** The program points inside `x` whose effects are recorded, itself included. */
  ghost predicate Inside(id: nat, x: Stmt)
    decreases x
  {
    id == x.id || match x
      case If(_, _, thn, els) => InsideBlock(id, thn) || InsideBlock(id, els)
      case For(_, _, _, _, _, body) => InsideBlock(id, body)
      case _ => false
  }

  ghost predicate InsideBlock(id: nat, b: Block)
    decreases b
  {
    id == b.id || exists i :: 0 <= i < |b.stms| && Inside(id, b.stms[i])
  }

  /** Surroundings that clash with the record of a part clash with the record of the whole. */
  lemma {:induction false} PartsClash(id: nat, x: Stmt, r: Records, around: Effect, noWrite: set<Variable>)
    requires PartsWithin(x, r) && Inside(id, x) && Fits(r.Effect(x.id), around, noWrite)
    ensures Fits(r.Effect(id), around, noWrite)
    decreases x, 1
  {
    if id != x.id {
      match x
      case If(_, _, thn, els) => BlockPartsClash(id, if InsideBlock(id, thn) then thn else els, r, around, noWrite);
      case For(_, _, _, _, _, body) => BlockPartsClash(id, body, r, around, noWrite);
    }
  }

  lemma {:induction false} BlockPartsClash(id: nat, b: Block, r: Records, around: Effect, noWrite: set<Variable>)
    requires BlockPartsWithin(b, r) && InsideBlock(id, b) && Fits(r.Effect(b.id), around, noWrite)
    ensures Fits(r.Effect(id), around, noWrite)
    decreases b, 0
  {
    if id != b.id {
      var i :| 0 <= i < |b.stms| && Inside(id, b.stms[i]);
      PartsClash(id, b.stms[i], r, around, noWrite);
    }
  }

  // ---------- reuse ----------

  /** An analysis from the same facts and the new records does nothing and has the same result. */
  lemma AgainTheSame(x: Stmt, lp: seq<Variable>, fs: FactVec, out: FactVec, r: Records, q: Records, around: Effect, noWrite: set<Variable>)
    requires !x.Break? && !x.Continue? && Ran(x, lp, fs, out, r, q, around, noWrite) && Fits(q.Effect(x.id), around, noWrite)
    ensures Ran(x, lp, fs, out, q, q, around, noWrite)
  {
    if !Reusable(x, fs, r) {
      forall i | 0 <= i < |fs| ensures HasEqual(fs, fs[i]) { assert EqualFact(fs[i], fs[i]); }
    }
  }

  /** In surroundings that the record clashes with it fails. */
  lemma AgainRejected(x: Stmt, lp: seq<Variable>, fs: FactVec, out: FactVec, r: Records, q: Records, around: Effect, noWrite: set<Variable>, around': Effect, noWrite': set<Variable>)
    requires !x.Break? && !x.Continue? && Ran(x, lp, fs, out, r, q, around, noWrite) && !Fits(q.Effect(x.id), around', noWrite')
    ensures Failed(x, lp, fs, q, q, around', noWrite')
  {
    if !Reusable(x, fs, r) {
      forall i | 0 <= i < |fs| ensures HasEqual(fs, fs[i]) { assert EqualFact(fs[i], fs[i]); }
    }
  }
}
