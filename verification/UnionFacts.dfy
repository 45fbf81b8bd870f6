/** Union-write facts: which member of a union was written last, along runs of the program. */
module UnionFacts {
  import opened Collections
  import opened Variables
  import opened Facts
  import opened PointsTo

  /** The member of each union variable that was written last. */
  type Written = map<Variable, int>

  function Lookup(fs: FactVec, u: Variable): Option<int> {
    var i := RelatedIndex(fs, UnionWrite(u, TOP));
    if i < |fs| then Some(fs[i].fid) else None
  }

  /** A fact that names a member names the one written last. */
  predicate Allows(fid: int, last: int) {
    fid < 0 || fid == last
  }

  ghost predicate Covers(fs: FactVec, st: Written) {
    forall u :: u in st ==> Lookup(fs, u).Some? && Allows(Lookup(fs, u).value, st[u])
  }

  /** `FactUnion::is_nonreadable_field` for a direct member of a union. */
  predicate NonReadable(v: Variable, fs: FactVec)
    requires v.Field?
  {
    var tmp := UnionWrite(Union(v.union), v.fid);
    var i := RelatedIndex(fs, tmp);
    i == |fs| || !Imply(tmp, fs[i])
  }

  /** A member may be read only if it is the one written last, in every covered state. */
  lemma ReadableWasWritten(v: Variable, fs: FactVec, st: Written)
    requires v.Field? && Union(v.union) in st && Covers(fs, st) && !NonReadable(v, fs)
    ensures st[Union(v.union)] == v.fid
  {
    RelatedIndexSame(fs, UnionWrite(Union(v.union), TOP), UnionWrite(Union(v.union), v.fid));
  }

  // ---------- merging and renewing ----------

  /** `TOP` is no unit of this join: joined with anything else it gives `BOTTOM`. */
  function JoinFid(a: int, b: int): int { if a == b then a else BOTTOM }

  lemma JoinFidIsJoin(v: Variable, a: int, b: int)
    ensures Join(UnionWrite(v, a), UnionWrite(v, b)) == UnionWrite(v, JoinFid(a, b))
  {}

  lemma Replaced(fs: FactVec, i: nat, f: Fact, u: Variable)
    requires i < |fs| && Related(fs[i], f) && f.UnionWrite? && i == RelatedIndex(fs, f)
    ensures Lookup(fs[i := f], u) == if u == f.v then Some(f.fid) else Lookup(fs, u)
  {
    var key := UnionWrite(u, TOP);
    RelatedIndexFirst(fs, key);
    var j := RelatedIndex(fs, key);
    if u == f.v {
      RelatedIndexSame(fs, key, f);
    }
    var gs := fs[i := f];
    forall k | 0 <= k < j ensures !Related(gs[k], key) {}
    RelatedIndexUnique(gs, key, j);
  }

  lemma Appended(fs: FactVec, f: Fact, u: Variable)
    requires f.UnionWrite? && RelatedIndex(fs, f) == |fs|
    ensures Lookup(fs + [f], u) == if u == f.v then Some(f.fid) else Lookup(fs, u)
  {
    var key := UnionWrite(u, TOP);
    var gs := fs + [f];
    RelatedIndexFirst(fs, key);
    RelatedIndexFirst(fs, f);
    if u == f.v {
      RelatedIndexUnique(gs, key, |fs|);
    } else {
      var j := RelatedIndex(fs, key);
      RelatedIndexUnique(gs, key, if j < |fs| then j else |gs|);
    }
  }

  lemma MergedLookup(fs: FactVec, n: Fact, u: Variable)
    requires n.UnionWrite?
    ensures Lookup(Merged(fs, n), u) ==
      if u != n.v then Lookup(fs, u)
      else match Lookup(fs, u)
        case None => Some(n.fid)
        case Some(g) => Some(JoinFid(n.fid, g))
  {
    var i := RelatedIndex(fs, n);
    RelatedIndexSame(fs, n, UnionWrite(n.v, TOP));
    if i == |fs| {
      Appended(fs, n, u);
    } else if !Imply(fs[i], n) {
      JoinFidIsJoin(n.v, n.fid, fs[i].fid);
      var f := Join(n, fs[i]);
      RelatedIndexSame(fs, n, f);
      Replaced(fs, i, f, u);
    }
  }

  lemma RenewedLookup(fs: FactVec, n: Fact, u: Variable)
    requires n.UnionWrite?
    ensures Lookup(Renewed(fs, n), u) == if u != n.v then Lookup(fs, u) else Some(n.fid)
  {
    var i := RelatedIndex(fs, n);
    RelatedIndexSame(fs, n, UnionWrite(n.v, TOP));
    if i == |fs| {
      Appended(fs, n, u);
    } else if !EqualFact(n, fs[i]) {
      Replaced(fs, i, n, u);
    }
  }

  /** After merging facts, a union keeps its old fact only weakened, and every merged-in fact about
      it is allowed for. */
  lemma {:induction false} MergedAllLookup(fs: FactVec, ns: FactVec, u: Variable, last: int)
    requires (forall f :: f in ns ==> f.UnionWrite?) && Lookup(fs, u).Some?
    ensures Lookup(MergedAll(fs, ns), u).Some?
    ensures Allows(Lookup(fs, u).value, last) || (exists f :: f in ns && f.v == u && Allows(f.fid, last))
      ==> Allows(Lookup(MergedAll(fs, ns), u).value, last)
    decreases |ns|
  {
    if ns != [] {
      assert ns == [ns[0]] + ns[1..];
      MergedLookup(fs, ns[0], u);
      MergedAllLookup(Merged(fs, ns[0]), ns[1..], u, last);
    }
  }

  /** Where control flow meets, the merged facts cover what either side covered. */
  lemma MergeCovers(fs: FactVec, gs: FactVec, st: Written)
    requires forall f :: f in gs ==> f.UnionWrite?
    requires Covers(fs, st) || (Covers(gs, st) && forall u :: u in st ==> Lookup(fs, u).Some?)
    ensures Covers(MergedAll(fs, gs), st)
  {
    forall u | u in st ensures Lookup(MergedAll(fs, gs), u).Some? && Allows(Lookup(MergedAll(fs, gs), u).value, st[u]) {
      MergedAllLookup(fs, gs, u, st[u]);
      if Covers(gs, st) {
        var i := RelatedIndex(gs, UnionWrite(u, TOP));
        assert gs[i] in gs && gs[i].v == u && Allows(gs[i].fid, st[u]);
      }
    }
  }

  // ---------- assignments ----------

  /** Applies the facts of an assignment with `cnt` possible targets. */
  function Applied(fs: FactVec, facts: FactVec, cnt: nat): FactVec {
    if facts == [] then fs
    else if cnt == 1 then Renewed(fs, facts[0])
    else MergedAll(fs, facts)
  }

  /** The facts of a write to one of the variables `lvars`, which are not unions themselves. */
  function FieldFacts(lvars: seq<Variable>): FactVec {
    if lvars == [] then []
    else (if lvars[0].Field? then [UnionWrite(Union(lvars[0].union), lvars[0].fid)] else []) + FieldFacts(lvars[1..])
  }

  function MakeFacts(lvars: seq<Variable>, fid: int): FactVec {
    if lvars == [] then [] else [UnionWrite(lvars[0], fid)] + MakeFacts(lvars[1..], fid)
  }

  lemma {:induction false} FieldFactsElements(lvars: seq<Variable>, f: Fact)
    ensures f in FieldFacts(lvars) <==>
      exists v :: v in lvars && v.Field? && f == UnionWrite(Union(v.union), v.fid)
  {
    if lvars != [] {
      FieldFactsElements(lvars[1..], f);
      assert lvars == [lvars[0]] + lvars[1..];
    }
  }

  lemma {:induction false} MakeFactsElements(lvars: seq<Variable>, fid: int, f: Fact)
    ensures f in MakeFacts(lvars, fid) <==> f.UnionWrite? && f.v in lvars && f.fid == fid
  {
    if lvars != [] {
      MakeFactsElements(lvars[1..], fid, f);
      assert lvars == [lvars[0]] + lvars[1..];
    }
  }

  /** Writing a member through a pointer with any number of possible targets. */
  lemma FieldWriteSound(lvars: seq<Variable>, actual: Variable, fs: FactVec, st: Written)
    requires Covers(fs, st) && actual in lvars && actual.Field? && Union(actual.union) in st
    ensures Covers(Applied(fs, FieldFacts(lvars), |lvars|), st[Union(actual.union) := actual.fid])
  {
    var facts, st' := FieldFacts(lvars), st[Union(actual.union) := actual.fid];
    var n := UnionWrite(Union(actual.union), actual.fid);
    FieldFactsElements(lvars, n);
    forall f | f in facts ensures f.UnionWrite? { FieldFactsElements(lvars, f); }
    if |lvars| == 1 { assert facts == [n] + FieldFacts(lvars[1..]); }
    TargetWritten(fs, facts, |lvars|, n, st);
  }

  lemma TargetWritten(fs: FactVec, facts: FactVec, cnt: nat, n: Fact, st: Written)
    requires Covers(fs, st) && (forall f :: f in facts ==> f.UnionWrite?)
    requires n in facts && n.v in st && (cnt == 1 ==> facts[0] == n)
    ensures forall last {:trigger st[n.v := last]} :: Allows(n.fid, last) ==> Covers(Applied(fs, facts, cnt), st[n.v := last])
  {
    forall last | Allows(n.fid, last) ensures Covers(Applied(fs, facts, cnt), st[n.v := last]) {
      var out, st' := Applied(fs, facts, cnt), st[n.v := last];
      forall u | u in st' ensures Lookup(out, u).Some? && Allows(Lookup(out, u).value, st'[u]) {
        if cnt == 1 { RenewedLookup(fs, n, u); } else { MergedAllLookup(fs, facts, u, st'[u]); }
      }
    }
  }

  // ---------- whole unions ----------

  /** Expressions of union type. `rvars` and `lvars` list what a pointer may point to; `actual` is
      what it does point to in the run at hand. */
  datatype UnionExpr =
    | Constant
    | Var(rvars: seq<Variable>, actual: Variable)
    | Assign(lvars: seq<Variable>, target: Variable, rhs: UnionExpr)
    | Comma(l: UnionExpr, r: UnionExpr)

  ghost predicate ExprOk(e: UnionExpr, st: Written) {
    match e
    case Constant => true
    case Var(rvars, actual) => actual in rvars && forall v :: v in rvars ==> v in st
    case Assign(lvars, target, rhs) => target in lvars && (forall v :: v in lvars ==> v in st) && ExprOk(rhs, st)
    case Comma(l, r) => ExprOk(l, st) && ExprOk(r, st)
  }

  /** The last-written member of the value, and the state afterwards. */
  function Eval(e: UnionExpr, st: Written): (int, Written) {
    match e
    case Constant => (0, st)
    case Var(_, actual) => (if actual in st then st[actual] else 0, st)
    case Assign(_, target, rhs) => var (x, st1) := Eval(rhs, st); (x, st1[target := x])
    case Comma(l, r) => Eval(r, Eval(l, st).1)
  }

  function JoinVars(fs: FactVec, vars: seq<Variable>, acc: Option<int> := None): Option<int>
    decreases |vars|
  {
    if vars == [] then acc
    else
      var here := match Lookup(fs, vars[0])
        case None => acc
        case Some(fid) => if acc.None? then Some(fid) else Some(JoinFid(acc.value, fid));
      JoinVars(fs, vars[1..], here)
  }

  function RhsFid(e: UnionExpr, fs: FactVec): Option<int> {
    match e
    case Constant => Some(0)
    case Var(rvars, _) => JoinVars(fs, rvars)
    case Assign(_, _, rhs) => RhsFid(rhs, fs)
    case Comma(_, r) => RhsFid(r, fs)
  }

  function AssignedFacts(lvars: seq<Variable>, rhs: UnionExpr, fs: FactVec): FactVec {
    match RhsFid(rhs, fs)
    case None => fs
    case Some(fid) => Applied(fs, MakeFacts(lvars, fid), |lvars|)
  }

  /** The facts after an expression has been visited. */
  function After(e: UnionExpr, fs: FactVec): FactVec {
    match e
    case Assign(lvars, _, rhs) => AssignedFacts(lvars, rhs, After(rhs, fs))
    case Comma(l, r) => After(r, After(l, fs))
    case _ => fs
  }

  lemma {:induction false} JoinVarsMeaning(fs: FactVec, vars: seq<Variable>, acc: Option<int>, last: int)
    requires forall v :: v in vars ==> Lookup(fs, v).Some?
    ensures vars != [] || acc.Some? ==> JoinVars(fs, vars, acc).Some?
    ensures (acc.Some? && Allows(acc.value, last)) || (exists v :: v in vars && Allows(Lookup(fs, v).value, last))
      ==> Allows(JoinVars(fs, vars, acc).value, last)
    decreases |vars|
  {
    if vars != [] {
      assert vars == [vars[0]] + vars[1..];
      var fid := Lookup(fs, vars[0]).value;
      JoinVarsMeaning(fs, vars[1..], if acc.None? then Some(fid) else Some(JoinFid(acc.value, fid)), last);
    }
  }

  /** The place the value of `e` was taken from still holds it. */
  ghost predicate Holds(e: UnionExpr, st: Written, x: int) {
    match e
    case Constant => x == 0
    case Var(_, actual) => actual in st && st[actual] == x
    case Assign(_, _, rhs) => Holds(rhs, st, x)
    case Comma(_, r) => Holds(r, st, x)
  }

  lemma {:induction false} HoldsAfterWrite(e: UnionExpr, st: Written, x: int, target: Variable)
    requires Holds(e, st, x)
    ensures Holds(e, st[target := x], x)
  {
    match e
    case Assign(_, _, rhs) => HoldsAfterWrite(rhs, st, x, target);
    case Comma(_, r) => HoldsAfterWrite(r, st, x, target);
    case _ =>
  }

  lemma {:induction false} RhsFidSound(e: UnionExpr, fs: FactVec, st: Written, x: int)
    requires ExprOk(e, st) && Covers(fs, st) && Holds(e, st, x)
    ensures RhsFid(e, fs).Some? && Allows(RhsFid(e, fs).value, x)
  {
    match e
    case Constant =>
    case Var(rvars, actual) => JoinVarsMeaning(fs, rvars, None, x);
    case Assign(_, _, rhs) => RhsFidSound(rhs, fs, st, x);
    case Comma(_, r) => RhsFidSound(r, fs, st, x);
  }

  lemma {:induction false} OkAnywhere(e: UnionExpr, st: Written, st': Written)
    requires ExprOk(e, st) && st.Keys == st'.Keys
    ensures ExprOk(e, st')
  {
    match e
    case Assign(_, _, rhs) => OkAnywhere(rhs, st, st');
    case Comma(l, r) => OkAnywhere(l, st, st'); OkAnywhere(r, st, st');
    case _ =>
  }

  /** Nested assignments and commas of whole unions: the facts cover the state afterwards, and the
      value can still be described from where it came from. */
  lemma {:induction false} UnionExprSound(e: UnionExpr, fs: FactVec, st: Written)
    requires ExprOk(e, st) && Covers(fs, st)
    ensures var (x, st') := Eval(e, st); st'.Keys == st.Keys && Covers(After(e, fs), st') && Holds(e, st', x)
  {
    match e
    case Assign(lvars, target, rhs) =>
      UnionExprSound(rhs, fs, st);
      var (x, st1) := Eval(rhs, st);
      var fs1 := After(rhs, fs);
      OkAnywhere(rhs, st, st1);
      RhsFidSound(rhs, fs1, st1, x);
      HoldsAfterWrite(rhs, st1, x, target);
      var fid := RhsFid(rhs, fs1).value;
      var facts, n := MakeFacts(lvars, fid), UnionWrite(target, fid);
      MakeFactsElements(lvars, fid, n);
      forall f | f in facts ensures f.UnionWrite? { MakeFactsElements(lvars, fid, f); }
      if |lvars| == 1 { assert facts == [UnionWrite(lvars[0], fid)] + MakeFacts(lvars[1..], fid); }
      TargetWritten(fs1, facts, |lvars|, n, st1);
      assert Allows(n.fid, x) && Covers(Applied(fs1, facts, |lvars|), st1[n.v := x]);
    case Comma(l, r) =>
      UnionExprSound(l, fs, st);
      OkAnywhere(r, st, Eval(l, st).1);
      UnionExprSound(r, After(l, fs), Eval(l, st).1);
    case _ =>
  }

  // ---------- where pointers lead ----------

  /** What every pointer points to. */
  type Pointing = map<Variable, Variable>

  function Follow(to: Pointing, v: Variable, k: nat): Option<Variable>
    decreases k
  {
    if k == 0 then Some(v) else if v.IsSpecial() || v !in to then None else Follow(to, to[v], k - 1)
  }

  ghost predicate PointsWithin(to: Pointing, pf: FactVec) {
    forall p :: p in to ==> to[p] in Pointees(pf, p)
  }

  /** Where a pointer leads is among the variables that its points-to facts list. */
  lemma {:induction false} TargetIsPossible(to: Pointing, pf: FactVec, v: Variable, k: nat, start: seq<Variable>)
    requires PointsWithin(to, pf) && v in start && Follow(to, v, k).Some?
    ensures Follow(to, v, k).value in Deref(start, k, pf)
    decreases k
  {
    if k > 0 {
      PointeesOfAllMembers(start, pf, [], to[v]);
      TargetIsPossible(to, pf, to[v], k - 1, PointeesOfAll(start, pf));
    }
  }

  /** A write to a union member through any chain of pointers keeps the facts covering the state, if the
      points-to facts cover the pointers. */
  lemma PointerWriteSound(to: Pointing, pf: FactVec, v: Variable, k: nat, fs: FactVec, st: Written)
    requires PointsWithin(to, pf) && Covers(fs, st) && Follow(to, v, k).Some?
    requires Follow(to, v, k).value.Field? && Union(Follow(to, v, k).value.union) in st
    ensures var m, lvars := Follow(to, v, k).value, Deref([v], k, pf);
      Covers(Applied(fs, FieldFacts(lvars), |lvars|), st[Union(m.union) := m.fid])
  {
    TargetIsPossible(to, pf, v, k, [v]);
    FieldWriteSound(Deref([v], k, pf), Follow(to, v, k).value, fs, st);
  }

  // ---------- runs ----------

  /** One step of a run: a write to a member, an assignment of whole unions, or the end of a branch,
      where the facts of the other branch are merged in. */
  datatype Step =
    | WriteMember(lvars: seq<Variable>, actual: Variable)
    | AssignUnion(e: UnionExpr)
    | Meet(other: FactVec)

  ghost predicate StepOk(s: Step, st: Written) {
    match s
    case WriteMember(lvars, actual) => actual in lvars && actual.Field? && Union(actual.union) in st
    case AssignUnion(e) => ExprOk(e, st)
    case Meet(other) => OnlyUnions(other)
  }

  function Taken(s: Step, st: Written): Written {
    match s
    case WriteMember(_, actual) => if actual.Field? then st[Union(actual.union) := actual.fid] else st
    case AssignUnion(e) => Eval(e, st).1
    case Meet(_) => st
  }

  function Analysed(s: Step, fs: FactVec): FactVec {
    match s
    case WriteMember(lvars, _) => Applied(fs, FieldFacts(lvars), |lvars|)
    case AssignUnion(e) => After(e, fs)
    case Meet(other) => MergedAll(fs, other)
  }

  function Run(steps: seq<Step>, st: Written): Written {
    if steps == [] then st else Run(steps[1..], Taken(steps[0], st))
  }

  function Analyse(steps: seq<Step>, fs: FactVec): FactVec {
    if steps == [] then fs else Analyse(steps[1..], Analysed(steps[0], fs))
  }

  lemma StepSound(s: Step, fs: FactVec, st: Written)
    requires Covers(fs, st) && StepOk(s, st)
    ensures Covers(Analysed(s, fs), Taken(s, st)) && Taken(s, st).Keys == st.Keys
  {
    match s
    case WriteMember(lvars, actual) => FieldWriteSound(lvars, actual, fs, st);
    case AssignUnion(e) => UnionExprSound(e, fs, st);
    case Meet(other) => MergeCovers(fs, other, st);
  }

  lemma StepOkAnywhere(s: Step, st: Written, st': Written)
    requires StepOk(s, st) && st.Keys == st'.Keys
    ensures StepOk(s, st')
  {
    if s.AssignUnion? { OkAnywhere(s.e, st, st'); }
  }

  /** The facts cover the state along every run. */
  lemma {:induction false} RunSound(steps: seq<Step>, fs: FactVec, st: Written)
    requires Covers(fs, st) && forall s :: s in steps ==> StepOk(s, st)
    ensures Covers(Analyse(steps, fs), Run(steps, st)) && Run(steps, st).Keys == st.Keys
    decreases |steps|
  {
    if steps != [] {
      assert steps[0] in steps;
      StepSound(steps[0], fs, st);
      var st' := Taken(steps[0], st);
      forall t | t in steps[1..] ensures StepOk(t, st') { StepOkAnywhere(t, st, st'); }
      RunSound(steps[1..], Analysed(steps[0], fs), st');
    }
  }

  /** Along every run, whatever the pointers point to, a member that may be read is the one that was
      written last. */
  lemma ReadsAreOfLastWritten(steps: seq<Step>, fs: FactVec, st: Written, v: Variable)
    requires Covers(fs, st) && forall s :: s in steps ==> StepOk(s, st)
    requires v.Field? && Union(v.union) in st && !NonReadable(v, Analyse(steps, fs))
    ensures Union(v.union) in Run(steps, st) && Run(steps, st)[Union(v.union)] == v.fid
  {
    RunSound(steps, fs, st);
    ReadableWasWritten(v, Analyse(steps, fs), Run(steps, st));
  }

  // ---------- loops ----------

  predicate OnlyUnions(fs: FactVec) { forall f :: f in fs ==> f.UnionWrite? }

  lemma MergedUnions(fs: FactVec, n: Fact)
    requires OnlyUnions(fs) && n.UnionWrite?
    ensures OnlyUnions(Merged(fs, n))
  {
    var i := RelatedIndex(fs, n);
    if i < |fs| {
      assert fs[i] in fs;
      JoinFidIsJoin(n.v, n.fid, fs[i].fid);
    }
  }

  lemma {:induction false} MergedAllUnions(fs: FactVec, ns: FactVec)
    requires OnlyUnions(fs) && OnlyUnions(ns)
    ensures OnlyUnions(MergedAll(fs, ns))
    decreases |ns|
  {
    if ns != [] {
      assert ns == [ns[0]] + ns[1..];
      MergedUnions(fs, ns[0]);
      MergedAllUnions(Merged(fs, ns[0]), ns[1..]);
    }
  }

  lemma AppliedUnions(fs: FactVec, facts: FactVec, cnt: nat)
    requires OnlyUnions(fs) && OnlyUnions(facts)
    ensures OnlyUnions(Applied(fs, facts, cnt))
  {
    if facts != [] {
      assert facts[0] in facts;
      MergedAllUnions(fs, facts);
    }
  }

  lemma {:induction false} AfterUnions(e: UnionExpr, fs: FactVec)
    requires OnlyUnions(fs)
    ensures OnlyUnions(After(e, fs))
  {
    match e
    case Assign(lvars, _, rhs) =>
      var gs := After(rhs, fs);
      AfterUnions(rhs, fs);
      if RhsFid(rhs, gs).Some? {
        var fid := RhsFid(rhs, gs).value;
        forall f | f in MakeFacts(lvars, fid) ensures f.UnionWrite? { MakeFactsElements(lvars, fid, f); }
        AppliedUnions(gs, MakeFacts(lvars, fid), |lvars|);
      }
    case Comma(l, r) => AfterUnions(l, fs); AfterUnions(r, After(l, fs));
    case _ =>
  }

  lemma {:induction false} AnalyseUnions(steps: seq<Step>, fs: FactVec)
    requires OnlyUnions(fs) && forall s :: s in steps && s.Meet? ==> OnlyUnions(s.other)
    ensures OnlyUnions(Analyse(steps, fs))
    decreases |steps|
  {
    if steps != [] {
      assert steps[0] in steps;
      match steps[0] {
        case WriteMember(lvars, _) =>
          forall f | f in FieldFacts(lvars) ensures f.UnionWrite? { FieldFactsElements(lvars, f); }
          AppliedUnions(fs, FieldFacts(lvars), |lvars|);
        case AssignUnion(e) => AfterUnions(e, fs);
        case Meet(other) => MergedAllUnions(fs, other);
      }
      AnalyseUnions(steps[1..], Analysed(steps[0], fs));
    }
  }

  /** A run through the rounds of a loop, each on a path of its own. */
  function Rounds(rounds: seq<seq<Step>>, st: Written): Written {
    if rounds == [] then st else Rounds(rounds[1..], Run(rounds[0], st))
  }

  /** Merging the out-facts of every path back into the head changes nothing. */
  ghost predicate Stable(head: FactVec, rounds: seq<seq<Step>>) {
    forall r :: r in rounds ==> MergedAll(head, Analyse(r, head)) == head
  }

  /** Stable facts at the head of a loop cover the state after any number of rounds. */
  lemma {:induction false} LoopCovers(rounds: seq<seq<Step>>, head: FactVec, st: Written)
    requires Covers(head, st) && OnlyUnions(head) && Stable(head, rounds)
    requires forall r, s :: r in rounds && s in r ==> StepOk(s, st)
    ensures Covers(head, Rounds(rounds, st)) && Rounds(rounds, st).Keys == st.Keys
    decreases |rounds|
  {
    if rounds != [] {
      var r := rounds[0];
      assert r in rounds;
      var st' := Run(r, st);
      RunSound(r, head, st);
      AnalyseUnions(r, head);
      MergeCovers(head, Analyse(r, head), st');
      forall q, s | q in rounds[1..] && s in q ensures StepOk(s, st') { StepOkAnywhere(s, st, st'); }
      LoopCovers(rounds[1..], head, st');
    }
  }

  /** In and after a loop, too, a member that may be read is the one that was written last. */
  lemma LoopReadsAreOfLastWritten(rounds: seq<seq<Step>>, steps: seq<Step>, head: FactVec, st: Written, v: Variable)
    requires Covers(head, st) && OnlyUnions(head) && Stable(head, rounds)
    requires (forall r, s :: r in rounds && s in r ==> StepOk(s, st)) && forall s :: s in steps ==> StepOk(s, st)
    requires v.Field? && Union(v.union) in st && !NonReadable(v, Analyse(steps, head))
    ensures Union(v.union) in Run(steps, Rounds(rounds, st)) && Run(steps, Rounds(rounds, st))[Union(v.union)] == v.fid
  {
    LoopCovers(rounds, head, st);
    var st' := Rounds(rounds, st);
    forall s | s in steps ensures StepOk(s, st') { StepOkAnywhere(s, st, st'); }
    ReadsAreOfLastWritten(steps, head, st', v);
  }

  // ---------- the loops of the analysis ----------

  /** `FactUnion::join_var_facts`. */
  method JoinVarFacts(facts: FactVec, vars: seq<Variable>) returns (fid: Option<int>)
    ensures fid == JoinVars(facts, vars)
  {
    fid := None;
    var i := 0;
    while i < |vars|
      invariant 0 <= i <= |vars| && JoinVars(facts, vars) == JoinVars(facts, vars[i..], fid)
    {
      assert vars[i..][1..] == vars[i + 1..];
      var k := FindRelatedFact(facts, UnionWrite(vars[i], TOP));
      if k < |facts| {
        if fid.None? {
          fid := Some(facts[k].fid);
        } else {
          JoinFidIsJoin(vars[i], fid.value, facts[k].fid);
          fid := Some(Join(UnionWrite(vars[i], fid.value), facts[k]).fid);
        }
      }
      i := i + 1;
    }
  }

  /** `FactUnion::abstract_fact_for_assign` for a left-hand side that is not a union. */
  method AbstractFactForAssign(lvars: seq<Variable>) returns (facts: FactVec)
    ensures facts == FieldFacts(lvars)
  {
    facts := [];
    var i := 0;
    while i < |lvars|
      invariant 0 <= i <= |lvars| && FieldFacts(lvars) == facts + FieldFacts(lvars[i..])
    {
      assert lvars[i..][1..] == lvars[i + 1..];
      if lvars[i].Field? {
        facts := facts + [UnionWrite(Union(lvars[i].union), lvars[i].fid)];
      }
      i := i + 1;
    }
  }

  /** `FactMgr::update_fact_for_assign` for a write to a member. */
  method UpdateFactForMember(lvars: seq<Variable>, inputs: FactVec) returns (r: FactVec)
    ensures r == Applied(inputs, FieldFacts(lvars), |lvars|)
  {
    r := inputs;
    var facts := AbstractFactForAssign(lvars);
    var changed;
    if |facts| > 0 {
      if |lvars| == 1 {
        r, changed := RenewFact(inputs, facts[0]);
      } else {
        r, changed := MergeFacts(inputs, facts);
      }
    }
  }
}
