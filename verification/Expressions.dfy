/** Expressions and their meaning. */
module Expressions {
  // The expressions of generated programs and their meaning. Evaluation yields `None` exactly when
  // the behaviour is undefined: a null or dead pointer is dereferenced, a dead pointer value is
  // read, or two unsequenced evaluations conflict (section 6.5 paragraph 2 of ISO/IEC 9899:2011).

  import opened Collections
  import opened Variables

  datatype Value = Num(n: int) | Ptr(target: Variable)

  type Store = map<Variable, Value>

  /** `Read(v, k)` dereferences `v` k times; k == -1 takes its address. `Assign(v, k, rhs)` writes
      through k dereferences of `v`. The operands of `Op` are unsequenced, and so are both sides of
      an assignment: `order` and `lhsFirst` say in which order this translation evaluates them. */
  datatype Expr =
    | Const(level: nat, n: int)
    | Read(v: Variable, k: int)
    | Assign(v: Variable, dst: nat, rhs: Expr, lhsFirst: bool)
    | Comma(l: Expr, r: Expr)
    | Logical(isAnd: bool, l: Expr, r: Expr)
    | Op(fn: seq<Value> -> int, args: seq<Expr>, order: seq<nat>)

  function LevelOf(e: Expr): int {
    match e
    case Const(level, _) => level
    case Read(v, k) => v.Level() - k
    case Assign(v, dst, _, _) => v.Level() - dst
    case Comma(_, r) => LevelOf(r)
    case _ => 0
  }

  predicate IsOrder(order: seq<nat>, n: nat) {
    && |order| == n
    && NoDup(order)
    && forall i :: 0 <= i < n ==> order[i] < n
  }

  /** Names only storage in scope, dereferences only pointers, assigns equal pointer levels. */
  ghost predicate WellTyped(e: Expr, scope: set<Variable>) {
    match e
    case Const(_, _) => true
    case Read(v, k) => v in scope && -1 <= k <= v.Level()
    case Assign(v, dst, rhs, _) => v in scope && dst <= v.Level() && LevelOf(rhs) == LevelOf(e) && WellTyped(rhs, scope)
    case Comma(l, r) => WellTyped(l, scope) && WellTyped(r, scope)
    case Logical(_, l, r) => WellTyped(l, scope) && WellTyped(r, scope)
    case Op(_, args, _) => forall i :: 0 <= i < |args| ==> WellTyped(args[i], scope)
  }

  /** Every operand list comes with a permutation of its indices. */
  ghost predicate OrdersOk(e: Expr) {
    match e
    case Const(_, _) => true
    case Read(_, _) => true
    case Assign(_, _, rhs, _) => OrdersOk(rhs)
    case Comma(l, r) => OrdersOk(l) && OrdersOk(r)
    case Logical(_, l, r) => OrdersOk(l) && OrdersOk(r)
    case Op(_, args, order) => IsOrder(order, |args|) && forall i :: 0 <= i < |args| ==> OrdersOk(args[i])
  }

  /** The same expression with the default evaluation order everywhere. Two expressions with equal
      `Canon` differ only in the order of unsequenced evaluations. */
  function Canon(e: Expr): Expr
    decreases e
  {
    match e
    case Const(_, _) => e
    case Read(_, _) => e
    case Assign(v, dst, rhs, _) => Assign(v, dst, Canon(rhs), false)
    case Comma(l, r) => Comma(Canon(l), Canon(r))
    case Logical(isAnd, l, r) => Logical(isAnd, Canon(l), Canon(r))
    case Op(fn, args, _) => Op(fn, CanonArgs(args), Ascending(|args|))
  }

  function CanonArgs(args: seq<Expr>): (r: seq<Expr>)
    ensures |r| == |args| && forall i :: 0 <= i < |r| ==> r[i] == Canon(args[i])
    decreases args
  {
    seq(|args|, i requires 0 <= i < |args| => Canon(args[i]))
  }

  function Ascending(n: nat): (r: seq<nat>)
    ensures IsOrder(r, n)
  {
    seq(n, i => i)
  }

  // ---------- stores ----------

  predicate HasType(x: Value, level: int, scope: set<Variable>) {
    if level == 0 then x.Num?
    else x.Ptr? && (x.target.IsSpecial() || (x.target in scope && x.target.Level() == level - 1))
  }

  /** Every location holds a value of its type, and pointers lead to live storage, to null or to
      dead storage. */
  ghost predicate StoreOk(s: Store) {
    forall c {:trigger CellOk(s, c)} :: c in s ==> CellOk(s, c)
  }

  predicate CellOk(s: Store, c: Variable)
    requires c in s
  {
    c.IsCell() && HasType(s[c], c.Level(), s.Keys)
  }

  const DEAD := Ptr(GarbagePtr)

  function Chase(s: Store, c: Variable, k: nat): Option<Variable>
    decreases k
  {
    if k == 0 then Some(c)
    else if c in s && s[c].Ptr? && s[c].target in s then Chase(s, s[c].target, k - 1)
    else None
  }

  /** The locations read while following `k` pointers from `c`. */
  function Path(s: Store, c: Variable, k: nat): set<Variable>
    decreases k
  {
    if k == 0 then {}
    else if c in s && s[c].Ptr? && s[c].target in s then {c} + Path(s, s[c].target, k - 1)
    else {c}
  }

  // ---------- evaluation ----------

  /** The accesses and the value of one evaluation. */
  datatype Footprint = Footprint(val: Value, rd: set<Variable>, wr: set<Variable>)

  datatype Out = Out(fp: Footprint, st: Store)

  function Truth(x: Value): bool { x != Num(0) && x != Ptr(NullPtr) }

  predicate Conflict(a: Footprint, b: Footprint) {
    !(a.wr !! (b.rd + b.wr)) || !(b.wr !! a.rd)
  }

  predicate NoConflicts(m: map<nat, Footprint>) {
    forall i, j :: i in m && j in m && i != j ==> !Conflict(m[i], m[j])
  }

  function AllReads(m: map<nat, Footprint>): set<Variable> {
    set i, c | i in m && c in m[i].rd :: c
  }

  function AllWrites(m: map<nat, Footprint>): set<Variable> {
    set i, c | i in m && c in m[i].wr :: c
  }

  function Values(m: map<nat, Footprint>, n: nat): seq<Value> {
    seq(n, i requires 0 <= i < n => if i in m then m[i].val else Num(0))
  }

  function Eval(e: Expr, s: Store): Option<Out>
    decreases e
  {
    match e
    case Const(level, n) =>
      var x := if level == 0 then Num(n) else if n == 0 then Ptr(NullPtr) else DEAD;
      Some(Out(Footprint(x, {}, {}), s))
    case Read(v, k) =>
      if k < 0 then Some(Out(Footprint(Ptr(v), {}, {}), s))
      else (match Chase(s, v, k)
            case None => None
            case Some(c) =>
              if c !in s || s[c] == DEAD then None
              else Some(Out(Footprint(s[c], Path(s, v, k) + {c}, {}), s)))
    case Assign(v, dst, rhs, lhsFirst) =>
      (match Eval(rhs, s)
       case None => None
       case Some(o) =>
         var base := if lhsFirst then s else o.st;
         match Chase(base, v, dst)
         case None => None
         case Some(c) =>
           if c !in o.st || c in o.fp.wr || !(o.fp.wr !! Path(base, v, dst)) then None
           else Some(Out(Footprint(o.fp.val, o.fp.rd + Path(base, v, dst), o.fp.wr + {c}), o.st[c := o.fp.val])))
    case Comma(l, r) =>
      (match Eval(l, s)
       case None => None
       case Some(a) =>
         match Eval(r, a.st)
         case None => None
         case Some(b) => Some(Out(Footprint(b.fp.val, a.fp.rd + b.fp.rd, a.fp.wr + b.fp.wr), b.st)))
    case Logical(isAnd, l, r) =>
      (match Eval(l, s)
       case None => None
       case Some(a) =>
         if Truth(a.fp.val) != isAnd then
           Some(Out(Footprint(Num(if isAnd then 0 else 1), a.fp.rd, a.fp.wr), a.st))
         else
           match Eval(r, a.st)
           case None => None
           case Some(b) =>
             Some(Out(Footprint(Num(if Truth(b.fp.val) then 1 else 0), a.fp.rd + b.fp.rd, a.fp.wr + b.fp.wr), b.st)))
    case Op(fn, args, order) =>
      (match EvalOrder(args, order, s)
       case None => None
       case Some((m, t)) =>
         if !NoConflicts(m) then None
         else Some(Out(Footprint(Num(fn(Values(m, |args|))), AllReads(m), AllWrites(m)), t)))
  }

  /** Evaluates the operands one after the other in the given order. */
  function EvalOrder(args: seq<Expr>, order: seq<nat>, s: Store): Option<(map<nat, Footprint>, Store)>
    decreases args, |order|
  {
    if order == [] then Some((map[], s))
    else if order[0] >= |args| then None
    else
      match Eval(args[order[0]], s)
      case None => None
      case Some(o) =>
        match EvalOrder(args, order[1..], o.st)
        case None => None
        case Some((m, t)) => Some((m[order[0] := o.fp], t))
  }

  // ---------- framing ----------

  predicate AgreeOn(s: Store, t: Store, cells: set<Variable>) {
    s.Keys == t.Keys && forall c :: c in cells && c in s ==> s[c] == t[c]
  }

  /** `t` with the contents of `u` at the locations `cells`. */
  function Patch(t: Store, u: Store, cells: set<Variable>): Store
    requires t.Keys == u.Keys
  {
    map c | c in t :: if c in cells then u[c] else t[c]
  }

  lemma {:induction false} ChaseFrame(s: Store, t: Store, c: Variable, k: nat)
    requires AgreeOn(s, t, Path(s, c, k))
    ensures Chase(t, c, k) == Chase(s, c, k) && Path(t, c, k) == Path(s, c, k)
    decreases k
  {
    if k > 0 && c in s && s[c].Ptr? && s[c].target in s {
      ChaseFrame(s, t, s[c].target, k - 1);
    }
  }

  lemma {:induction false} PathInStore(s: Store, c: Variable, k: nat)
    requires Chase(s, c, k).Some? && c in s
    ensures Path(s, c, k) <= s.Keys && Chase(s, c, k).value in s
    decreases k
  {
    if k > 0 { PathInStore(s, s[c].target, k - 1); }
  }

  ghost predicate Framed(s: Store, o: Out) {
    && o.st.Keys == s.Keys
    && o.fp.wr <= s.Keys
    && forall c :: c in s && c !in o.fp.wr ==> o.st[c] == s[c]
  }

  /** Evaluation changes only the locations of its write footprint. */
  lemma {:induction false} EvalFramed(e: Expr, s: Store)
    requires Eval(e, s).Some? && OrdersOk(e)
    ensures Framed(s, Eval(e, s).value)
    decreases e
  {
    match e
    case Const(_, _) =>
    case Read(_, _) =>
    case Assign(_, _, rhs, _) => EvalFramed(rhs, s);
    case Comma(l, r) =>
      EvalFramed(l, s);
      EvalFramed(r, Eval(l, s).value.st);
    case Logical(isAnd, l, r) =>
      EvalFramed(l, s);
      var a := Eval(l, s).value;
      if Truth(a.fp.val) == isAnd { EvalFramed(r, a.st); }
    case Op(_, args, order) =>
      EvalOrderFramed(args, order, s);
  }

  lemma {:induction false} EvalOrderFramed(args: seq<Expr>, order: seq<nat>, s: Store)
    requires EvalOrder(args, order, s).Some? && NoDup(order)
    requires forall i :: 0 <= i < |args| ==> OrdersOk(args[i])
    ensures var (m, t) := EvalOrder(args, order, s).value;
      && m.Keys == ToSet(order)
      && Framed(s, Out(Footprint(Num(0), {}, AllWrites(m)), t))
    decreases args, |order|
  {
    if order != [] {
      EvalFramed(args[order[0]], s);
      var o := Eval(args[order[0]], s).value;
      EvalOrderFramed(args, order[1..], o.st);
      var (m, t) := EvalOrder(args, order[1..], o.st).value;
      assert ToSet(order) == {order[0]} + ToSet(order[1..]);
      var m' := m[order[0] := o.fp];
      assert order[0] !in m;
      AllOfUpdate(m, order[0], o.fp);
    }
  }

  lemma AllOfUpdate(m: map<nat, Footprint>, i: nat, fp: Footprint)
    requires i !in m
    ensures AllWrites(m[i := fp]) == AllWrites(m) + fp.wr
    ensures AllReads(m[i := fp]) == AllReads(m) + fp.rd
  {
    var m' := m[i := fp];
    forall c ensures c in AllWrites(m') <==> c in AllWrites(m) + fp.wr {
      if c in fp.wr { assert i in m' && c in m'[i].wr; }
      if c in AllWrites(m) {
        var j :| j in m && c in m[j].wr;
        assert j in m' && c in m'[j].wr;
      }
    }
    forall c ensures c in AllReads(m') <==> c in AllReads(m) + fp.rd {
      if c in fp.rd { assert i in m' && c in m'[i].rd; }
      if c in AllReads(m) {
        var j :| j in m && c in m[j].rd;
        assert j in m' && c in m'[j].rd;
      }
    }
  }

  /** Evaluation depends only on its read footprint: in a store that agrees there, it has the
      same value and accesses and makes the same changes. */
  lemma {:induction false} EvalFrame(e: Expr, s: Store, t: Store)
    requires Eval(e, s).Some? && AgreeOn(s, t, Eval(e, s).value.fp.rd)
    requires OrdersOk(e)
    ensures Eval(e, t).Some? && Eval(e, t).value.fp == Eval(e, s).value.fp
    ensures Eval(e, s).value.st.Keys == t.Keys
    ensures Eval(e, t).value.st == Patch(t, Eval(e, s).value.st, Eval(e, s).value.fp.wr)
    decreases e, 0
  {
    match e
    case Const(_, _) =>
    case Read(v, k) =>
      if k >= 0 { ChaseFrame(s, t, v, k); }
    case Assign(v, dst, rhs, lhsFirst) =>
      EvalFrame(rhs, s, t);
      EvalFramed(rhs, s);
      AssignFrame(e, s, t);
    case Comma(l, r) =>
      EvalFrame(l, s, t);
      EvalFramed(l, s);
      SequenceFrame(l, r, s, t);
    case Logical(isAnd, l, r) =>
      EvalFrame(l, s, t);
      EvalFramed(l, s);
      var a := Eval(l, s).value;
      if Truth(a.fp.val) == isAnd { SequenceFrame(l, r, s, t); }
    case Op(_, args, order) =>
      EvalOrderFrame(args, order, s, t);
  }

  /** The part of the frame property that `Comma` and `Logical` share: `l` and then `r`. */
  lemma {:induction false} SequenceFrame(l: Expr, r: Expr, s: Store, t: Store)
    requires OrdersOk(l) && OrdersOk(r) && Eval(l, s).Some? && Eval(r, Eval(l, s).value.st).Some?
    requires var a := Eval(l, s).value; var b := Eval(r, a.st).value; AgreeOn(s, t, a.fp.rd + b.fp.rd)
    requires Framed(s, Eval(l, s).value)
    requires Eval(l, t).Some? && Eval(l, t).value.fp == Eval(l, s).value.fp
    requires Eval(l, t).value.st == Patch(t, Eval(l, s).value.st, Eval(l, s).value.fp.wr)
    ensures var a := Eval(l, s).value; var b := Eval(r, a.st).value; var a' := Eval(l, t).value;
      && Eval(r, a'.st).Some?
      && Eval(r, a'.st).value.fp == b.fp
      && b.st.Keys == t.Keys
      && Eval(r, a'.st).value.st == Patch(t, b.st, a.fp.wr + b.fp.wr)
    decreases r, 1
  {
    var a, a' := Eval(l, s).value, Eval(l, t).value;
    EvalFrame(r, a.st, a'.st);
    EvalFramed(r, a.st);
  }

  lemma AssignFrame(e: Expr, s: Store, t: Store)
    requires e.Assign? && Eval(e, s).Some? && AgreeOn(s, t, Eval(e, s).value.fp.rd)
    requires Framed(s, Eval(e.rhs, s).value)
    requires Eval(e.rhs, t).Some? && Eval(e.rhs, t).value.fp == Eval(e.rhs, s).value.fp
    requires Eval(e.rhs, t).value.st == Patch(t, Eval(e.rhs, s).value.st, Eval(e.rhs, s).value.fp.wr)
    ensures Eval(e, t).Some? && Eval(e, t).value.fp == Eval(e, s).value.fp
    ensures Eval(e, s).value.st.Keys == t.Keys
    ensures Eval(e, t).value.st == Patch(t, Eval(e, s).value.st, Eval(e, s).value.fp.wr)
  {
    var a, b := Eval(e.rhs, s).value, Eval(e.rhs, t).value;
    var baseS, baseT := if e.lhsFirst then s else a.st, if e.lhsFirst then t else b.st;
    assert AgreeOn(baseS, baseT, Path(baseS, e.v, e.dst));
    ChaseFrame(baseS, baseT, e.v, e.dst);
  }

  lemma {:induction false} EvalOrderFrame(args: seq<Expr>, order: seq<nat>, s: Store, t: Store)
    requires EvalOrder(args, order, s).Some? && NoDup(order)
    requires AgreeOn(s, t, AllReads(EvalOrder(args, order, s).value.0))
    requires forall i :: 0 <= i < |args| ==> OrdersOk(args[i])
    ensures EvalOrder(args, order, t).Some?
    ensures EvalOrder(args, order, t).value.0 == EvalOrder(args, order, s).value.0
    ensures EvalOrder(args, order, s).value.1.Keys == t.Keys
    ensures EvalOrder(args, order, t).value.1
         == Patch(t, EvalOrder(args, order, s).value.1, AllWrites(EvalOrder(args, order, s).value.0))
    decreases args, |order|
  {
    EvalOrderFramed(args, order, s);
    if order != [] {
      var e := args[order[0]];
      var a := Eval(e, s).value;
      EvalOrderFramed(args, order[1..], a.st);
      var (m, _) := EvalOrder(args, order[1..], a.st).value;
      assert order[0] !in m;
      AllOfUpdate(m, order[0], a.fp);
      EvalFrame(e, s, t);
      EvalFramed(e, s);
      var b := Eval(e, t).value;
      EvalOrderFrame(args, order[1..], a.st, b.st);
    }
  }
}
