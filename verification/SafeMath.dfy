/** Guarded arithmetic. */
module SafeMath {
  // The guarded vector arithmetic of the run-time library. `None` stands for undefined behaviour
  // (sections 6.5 paragraph 5, 6.5.5 and 6.5.7 of ISO/IEC 9899:2011).

  import opened Collections

  datatype IntType = IntType(signed: bool, width: nat)

  function Pow2(n: nat): (r: nat)
    ensures r >= 1
  {
    if n == 0 then 1 else 2 * Pow2(n - 1)
  }

  function Max(t: IntType): int
    requires t.width >= 1
  {
    if t.signed then Pow2(t.width - 1) - 1 else Pow2(t.width) - 1
  }

  function Min(t: IntType): (r: int)
    requires t.width >= 1
  {
    if t.signed then 0 - Pow2(t.width - 1) else 0
  }

  predicate InType(t: IntType, x: int)
    requires t.width >= 1
  {
    Min(t) <= x <= Max(t)
  }

  /** Division that truncates towards zero. */
  function CDiv(a: int, b: int): int
    requires b != 0
  {
    if a >= 0 then (if b > 0 then a / b else -(a / -b))
    else (if b > 0 then -(-a / b) else -a / -b)
  }

  function CRem(a: int, b: int): int
    requires b != 0
  {
    a - CDiv(a, b) * b
  }

  /** The quotient and remainder of section 6.5.5: the remainder is smaller than the divisor and has
      the sign of the dividend. */
  lemma CDivMeaning(a: int, b: int)
    requires b != 0
    ensures a == CDiv(a, b) * b + CRem(a, b)
    ensures if a >= 0 then 0 <= CRem(a, b) && (CRem(a, b) < b || CRem(a, b) < -b)
            else 0 <= -CRem(a, b) && (-CRem(a, b) < b || -CRem(a, b) < -b)
  {
    var x, y := if a >= 0 then a else -a, if b > 0 then b else -b;
    var q := x / y;
    assert x == q * y + x % y;
    assert (-q) * (-y) == q * y && (-q) * y == -(q * y) && q * (-y) == -(q * y);
  }

  // ---------- arithmetic of one type ----------

  datatype BinOp = Add | Sub | Mul | Div | Mod | Lshift | Rshift

  function Wrap(t: IntType, x: int): int
    requires t.width >= 1
  {
    x % Pow2(t.width)
  }

  /** A result that must be representable if the type is signed, and wraps around otherwise. */
  function Fit(t: IntType, x: int): Option<int>
    requires t.width >= 1
  {
    if !t.signed then Some(Wrap(t, x)) else if InType(t, x) then Some(x) else None
  }

  /** The operators of C on values of type `t`. */
  function Apply(op: BinOp, t: IntType, a: int, b: int): Option<int>
    requires t.width >= 1
  {
    match op
    case Add => Fit(t, a + b)
    case Sub => Fit(t, a - b)
    case Mul => Fit(t, a * b)
    case Div => if b == 0 then None else Fit(t, CDiv(a, b))
    case Mod => if b == 0 || Fit(t, CDiv(a, b)).None? then None else Fit(t, CRem(a, b))
    case Lshift => if b < 0 || b >= t.width || a < 0 then None else Fit(t, a * Pow2(b))
    case Rshift => if b < 0 || b >= t.width then None else Some(a / Pow2(b))
  }

  function Negate(t: IntType, a: int): Option<int>
    requires t.width >= 1
  {
    Fit(t, -a)
  }

  // ---------- the guards ----------

  /** The guards, with every intermediate result computed in the type itself. */
  function Check(op: BinOp, t: IntType, a: int, b: int): Option<bool>
    requires t.width >= 1
  {
    match op
    case Add =>
      if !t.signed then Some(true)
      else if a > 0 && b > 0 then Not(a, Apply(Sub, t, Max(t), b), true)
      else if a < 0 && b < 0 then Not(a, Apply(Sub, t, Min(t), b), false)
      else Some(true)
    case Sub =>
      if !t.signed then Some(true)
      else if b < 0 then Not(a, Apply(Add, t, Max(t), b), true)
      else if b > 0 then Not(a, Apply(Add, t, Min(t), b), false)
      else Some(true)
    case Mul =>
      if !t.signed then Some(true)
      else if a > 0 && b > 0 then Not(a, Apply(Div, t, Max(t), b), true)
      else if a > 0 && b <= 0 then Not(b, Apply(Div, t, Min(t), a), false)
      else if a <= 0 && b > 0 then Not(a, Apply(Div, t, Min(t), b), false)
      else if a < 0 && b < 0 then Not(a, Apply(Div, t, Max(t), b), false)
      else Some(true)
    case Div => Some(b != 0 && !(t.signed && a == Min(t) && b == -1))
    case Mod => Some(b != 0 && !(t.signed && a == Min(t) && b == -1))
    case Lshift =>
      if t.signed && (b < 0 || a < 0) then Some(false)
      else if b >= t.width then Some(false)
      else Not(a, Apply(Rshift, t, Max(t), b), true)
    case Rshift =>
      if t.signed && (b < 0 || a < 0) then Some(false) else Some(b < t.width)
  }

  /** Whether `x` is not beyond `limit`: not greater, or not less. */
  function Not(x: int, limit: Option<int>, greater: bool): Option<bool> {
    match limit
    case None => None
    case Some(m) => Some(if greater then !(x > m) else !(x < m))
  }

  function CheckMinus(t: IntType, a: int): bool
    requires t.width >= 1
  {
    !(t.signed && a == Min(t))
  }

  lemma MulMonotone(a: int, b: int, c: int)
    requires a <= b && c >= 0
    ensures a * c <= b * c
  {
    assert b * c == a * c + (b - a) * c;
  }

  lemma DivisionFacts(m: nat, y: nat)
    requires y > 0
    ensures 0 <= m / y <= m && m / y * y <= m < m / y * y + y
    ensures m / y == m && m > 0 ==> y == 1
  {
    var q := m / y;
    assert m == q * y + m % y;
    MulMonotone(1, y, q);
    if y > 1 { MulMonotone(2, y, q); }
  }

  lemma QuotientBound(x: nat, y: nat, m: nat)
    requires y > 0
    ensures x > m / y <==> x * y > m
  {
    var q := m / y;
    DivisionFacts(m, y);
    if x > q {
      MulMonotone(q + 1, x, y);
      assert (q + 1) * y == q * y + y;
    } else {
      MulMonotone(x, q, y);
    }
  }

  lemma Signs(a: int, b: int)
    ensures -a * b == -(a * b) && a * -b == -(a * b) && -a * -b == a * b && a * b == b * a
  {}

  /** The limit a multiplication guard compares with is always representable, and the comparison is
      exact. */
  lemma MulGuard(t: IntType, a: int, b: int)
    requires t.width >= 1 && t.signed && InType(t, a) && InType(t, b)
    ensures Check(Mul, t, a, b) == Some(InType(t, a * b))
  {
    Signs(a, b);
    if a > 0 && b > 0 {
      MulPositive(t, a, b);
    } else if a > 0 && b <= 0 {
      MulMixed(t, a, -b);
    } else if a <= 0 && b > 0 {
      MulMixed(t, b, -a);
      Signs(-a, b);
    } else if a < 0 && b < 0 {
      MulNegative(t, -a, -b);
    }
  }

  lemma MulPositive(t: IntType, a: int, b: int)
    requires t.width >= 1 && t.signed && a > 0 && b > 0
    ensures InType(t, CDiv(Max(t), b)) && (a > CDiv(Max(t), b) <==> a * b > Max(t)) && a * b >= 0
  {
    DivisionFacts(Max(t), b);
    QuotientBound(a, b, Max(t));
  }

  lemma MulMixed(t: IntType, pos: int, neg: int)
    requires t.width >= 1 && t.signed && pos > 0 && neg >= 0
    ensures InType(t, CDiv(Min(t), pos)) && (-neg < CDiv(Min(t), pos) <==> -(pos * neg) < Min(t)) && pos * neg >= 0
  {
    DivisionFacts(-Min(t), pos);
    QuotientBound(neg, pos, -Min(t));
    Signs(neg, pos);
    MulMonotone(0, pos, neg);
  }

  lemma MulNegative(t: IntType, a: int, b: int)
    requires t.width >= 1 && t.signed && a > 0 && b > 0
    ensures InType(t, CDiv(Max(t), -b)) && (-a < CDiv(Max(t), -b) <==> a * b > Max(t)) && a * b >= 0
  {
    DivisionFacts(Max(t), b);
    QuotientBound(a, b, Max(t));
    MulMonotone(0, a, b);
  }

  lemma ShiftGuard(t: IntType, a: int, b: int)
    requires t.width >= 1 && InType(t, a) && a >= 0 && 0 <= b < t.width
    ensures Check(Lshift, t, a, b) == Some(a * Pow2(b) <= Max(t))
  {
    QuotientBound(a, Pow2(b), Max(t));
  }

  /** What each guard decides: for signed types and for division exactly whether the operation is
      defined; for shifts also that no bit is lost and that nothing negative is shifted. */
  predicate Allowed(op: BinOp, t: IntType, a: int, b: int)
    requires t.width >= 1
  {
    match op
    case Lshift => a >= 0 && 0 <= b < t.width && a * Pow2(b) <= Max(t)
    case Rshift => a >= 0 && 0 <= b < t.width
    case _ => Apply(op, t, a, b).Some?
  }

  /** Every guard is itself free of undefined behaviour and decides exactly `Allowed`. */
  lemma GuardIsExact(op: BinOp, t: IntType, a: int, b: int)
    requires t.width >= 1 && InType(t, a) && InType(t, b)
    ensures Check(op, t, a, b) == Some(Allowed(op, t, a, b))
  {
    match op
    case Mul => if t.signed { MulGuard(t, a, b); }
    case Div => if b != 0 { DivGuard(t, a, b); }
    case Mod => if b != 0 { DivGuard(t, a, b); }
    case Lshift => if a >= 0 && 0 <= b < t.width { ShiftGuard(t, a, b); }
    case _ =>
  }

  lemma DivGuard(t: IntType, a: int, b: int)
    requires t.width >= 1 && t.signed ==> InType(t, a) && InType(t, b)
    requires t.width >= 1 && b != 0
    ensures Check(Div, t, a, b) == Some(Apply(Div, t, a, b).Some?)
    ensures Check(Mod, t, a, b) == Some(Apply(Mod, t, a, b).Some?)
  {
    if t.signed {
      var x, y := if a >= 0 then a else -a, if b > 0 then b else -b;
      DivisionFacts(x, y);
      CDivMeaning(a, b);
    }
  }

  /** For signed operands the guards accept exactly the defined operations, right shift apart;
      for unsigned operands they never reject one but a shift that loses bits. */
  lemma GuardMeansDefined(op: BinOp, t: IntType, a: int, b: int)
    requires t.width >= 1 && InType(t, a) && InType(t, b)
    ensures Check(op, t, a, b) == Some(true) ==> Apply(op, t, a, b).Some?
    ensures Check(op, t, a, b) == Some(false) && Apply(op, t, a, b).Some? <==>
      || (op == Lshift && !t.signed && b < t.width && a * Pow2(b) > Max(t))
      || (op == Rshift && t.signed && 0 <= b < t.width && a < 0)
  {
    GuardIsExact(op, t, a, b);
  }

  /** Defined operations stay in their type. */
  lemma ApplyInType(op: BinOp, t: IntType, a: int, b: int)
    requires t.width >= 1 && InType(t, a) && InType(t, b) && Apply(op, t, a, b).Some?
    ensures InType(t, Apply(op, t, a, b).value)
  {
    if op == Rshift && 0 <= b < t.width {
      if a >= 0 { DivisionFacts(a, Pow2(b)); } else { NegativeShift(a, Pow2(b)); }
    }
  }

  lemma NegativeShift(a: int, p: nat)
    requires a < 0 && p > 0
    ensures a <= a / p < 0
  {
    var q := a / p;
    assert a == q * p + a % p;
    assert (a - 1) * p == a * p - p;
    Signs(a, p);
    if q >= 0 { MulMonotone(0, q, p); }
    if q < a {
      MulMonotone(q, a - 1, p);
      MulMonotone(1, p, -a);
    }
  }

  lemma MinusIsExact(t: IntType, a: int)
    requires t.width >= 1 && InType(t, a)
    ensures CheckMinus(t, a) <==> Negate(t, a).Some?
    ensures Negate(t, a).Some? ==> InType(t, Negate(t, a).value)
  {}

  // ---------- vectors ----------

  type Vec = seq<int>

  predicate InVec(t: IntType, n: nat, v: Vec)
    requires t.width >= 1
  {
    |v| == n && forall i :: 0 <= i < n ==> InType(t, v[i])
  }

  /** The guards of the lanes, joined by `&&`. */
  function CheckLanes(op: BinOp, t: IntType, a: Vec, b: Vec): Option<bool>
    requires t.width >= 1 && |a| == |b|
  {
    if a == [] then Some(true)
    else match Check(op, t, a[0], b[0])
      case None => None
      case Some(false) => Some(false)
      case Some(true) => CheckLanes(op, t, a[1..], b[1..])
  }

  /** The native vector operator: undefined if it is undefined in any lane. */
  function ApplyLanes(op: BinOp, t: IntType, a: Vec, b: Vec): Option<Vec>
    requires t.width >= 1 && |a| == |b|
  {
    if a == [] then Some([])
    else
      var x, xs := Apply(op, t, a[0], b[0]), ApplyLanes(op, t, a[1..], b[1..]);
      if x.None? || xs.None? then None else Some([x.value] + xs.value)
  }

  /** The wrappers: the vector operation if every lane passes its guard, the left operand otherwise. */
  function Safe(op: BinOp, t: IntType, a: Vec, b: Vec): Option<Vec>
    requires t.width >= 1 && |a| == |b|
  {
    match CheckLanes(op, t, a, b)
    case None => None
    case Some(false) => Some(a)
    case Some(true) => ApplyLanes(op, t, a, b)
  }

  predicate CheckMinusLanes(t: IntType, a: Vec)
    requires t.width >= 1
  {
    a == [] || (CheckMinus(t, a[0]) && CheckMinusLanes(t, a[1..]))
  }

  function NegateLanes(t: IntType, a: Vec): Option<Vec>
    requires t.width >= 1
  {
    if a == [] then Some([])
    else
      var x, xs := Negate(t, a[0]), NegateLanes(t, a[1..]);
      if x.None? || xs.None? then None else Some([x.value] + xs.value)
  }

  function SafeMinus(t: IntType, a: Vec): Option<Vec>
    requires t.width >= 1
  {
    if CheckMinusLanes(t, a) then NegateLanes(t, a) else Some(a)
  }

  ghost predicate AllAllowed(op: BinOp, t: IntType, a: Vec, b: Vec)
    requires t.width >= 1 && |a| == |b|
  {
    forall i :: 0 <= i < |a| ==> Allowed(op, t, a[i], b[i])
  }

  lemma {:induction false} CheckLanesMeaning(op: BinOp, t: IntType, n: nat, a: Vec, b: Vec)
    requires t.width >= 1 && InVec(t, n, a) && InVec(t, n, b)
    ensures CheckLanes(op, t, a, b) == Some(AllAllowed(op, t, a, b))
    decreases n
  {
    if n > 0 {
      GuardIsExact(op, t, a[0], b[0]);
      CheckLanesMeaning(op, t, n - 1, a[1..], b[1..]);
      assert AllAllowed(op, t, a, b) <==> Allowed(op, t, a[0], b[0]) && AllAllowed(op, t, a[1..], b[1..]) by {
        assert forall i :: 0 < i < n ==> a[i] == a[1..][i - 1] && b[i] == b[1..][i - 1];
      }
    }
  }

  lemma {:induction false} ApplyLanesMeaning(op: BinOp, t: IntType, n: nat, a: Vec, b: Vec)
    requires t.width >= 1 && InVec(t, n, a) && InVec(t, n, b) && AllAllowed(op, t, a, b)
    ensures var r := ApplyLanes(op, t, a, b);
      && r.Some? && InVec(t, n, r.value)
      && forall i :: 0 <= i < n ==> Apply(op, t, a[i], b[i]) == Some(r.value[i])
    decreases n
  {
    if n > 0 {
      GuardIsExact(op, t, a[0], b[0]);
      GuardMeansDefined(op, t, a[0], b[0]);
      ApplyInType(op, t, a[0], b[0]);
      ApplyLanesMeaning(op, t, n - 1, a[1..], b[1..]);
    }
  }

  /** A wrapper is never undefined. It computes the operation in every lane if it is allowed in every
      lane, and returns its left operand otherwise. */
  lemma SafeMeaning(op: BinOp, t: IntType, n: nat, a: Vec, b: Vec)
    requires t.width >= 1 && InVec(t, n, a) && InVec(t, n, b)
    ensures var r := Safe(op, t, a, b);
      && r.Some? && InVec(t, n, r.value)
      && if AllAllowed(op, t, a, b) then forall i :: 0 <= i < n ==> Apply(op, t, a[i], b[i]) == Some(r.value[i])
         else r.value == a
  {
    CheckLanesMeaning(op, t, n, a, b);
    if AllAllowed(op, t, a, b) { ApplyLanesMeaning(op, t, n, a, b); }
  }

  lemma {:induction false} SafeMinusMeaning(t: IntType, n: nat, a: Vec)
    requires t.width >= 1 && InVec(t, n, a)
    ensures SafeMinus(t, a).Some? && InVec(t, n, SafeMinus(t, a).value)
    ensures CheckMinusLanes(t, a) ==> forall i :: 0 <= i < n ==> Negate(t, a[i]) == Some(SafeMinus(t, a).value[i])
    ensures !CheckMinusLanes(t, a) ==> SafeMinus(t, a).value == a && exists i :: 0 <= i < n && Negate(t, a[i]).None?
    decreases n
  {
    if n > 0 {
      MinusIsExact(t, a[0]);
      SafeMinusMeaning(t, n - 1, a[1..]);
      assert forall i :: 0 < i < n ==> a[i] == a[1..][i - 1];
    }
  }

  // ---------- expression trees ----------

  datatype Tree = Lit(v: Vec) | Binary(op: BinOp, l: Tree, r: Tree) | Minus(e: Tree)

  predicate WellTyped(e: Tree, t: IntType, n: nat)
    requires t.width >= 1
  {
    match e
    case Lit(v) => InVec(t, n, v)
    case Binary(_, l, r) => WellTyped(l, t, n) && WellTyped(r, t, n)
    case Minus(x) => WellTyped(x, t, n)
  }

  function Eval(e: Tree, t: IntType): Option<Vec>
    requires t.width >= 1
  {
    match e
    case Lit(v) => Some(v)
    case Binary(op, l, r) =>
      var x, y := Eval(l, t), Eval(r, t);
      if x.None? || y.None? || |x.value| != |y.value| then None else Safe(op, t, x.value, y.value)
    case Minus(x) =>
      (match Eval(x, t)
       case None => None
       case Some(v) => SafeMinus(t, v))
  }

  /** Expressions built from the wrappers never overflow, divide by zero or shift too far, in any
      lane, for any width. */
  lemma {:induction false} TreeIsDefined(e: Tree, t: IntType, n: nat)
    requires t.width >= 1 && WellTyped(e, t, n)
    ensures Eval(e, t).Some? && InVec(t, n, Eval(e, t).value)
  {
    match e
    case Lit(_) =>
    case Binary(op, l, r) =>
      TreeIsDefined(l, t, n);
      TreeIsDefined(r, t, n);
      SafeMeaning(op, t, n, Eval(l, t).value, Eval(r, t).value);
    case Minus(x) =>
      TreeIsDefined(x, t, n);
      SafeMinusMeaning(t, n, Eval(x, t).value);
  }

  // ---------- atomics, one thread ----------

  /** Conversion to the type of the memory location. */
  function Cast(t: IntType, x: int): (r: int)
    requires t.width >= 1
    ensures InType(t, r)
  {
    var m := Wrap(t, x);
    if t.signed && m > Max(t) then m - Pow2(t.width) else m
  }

  predicate Apart(a: int, b: int, n: nat, k: int) { a == b + k * n }

  lemma Residue(x: int, n: int)
    requires n > 0
    ensures Apart(x % n, x, n, -(x / n)) && Apart(x % n - n, x, n, -(x / n) - 1)
  {
    var q := x / n;
    assert x == q * n + x % n;
    assert (-q) * n == -(q * n) && (-q - 1) * n == -(q * n) - n;
  }

  lemma OneResidue(d: int, n: int, r: int, r': int)
    requires n > 0 && d * n == r' - r && 0 <= r < n && 0 <= r' < n
    ensures r == r'
  {
    if d > 0 { MulMonotone(1, d, n); } else if d < 0 { MulMonotone(d, -1, n); }
  }

  /** The residue of a number that is not far away is that number, or the number of values more. */
  lemma NearResidue(x: int, n: int)
    requires n > 0 && -n <= x < n
    ensures x % n == if x < 0 then x + n else x
  {
    var q := x / n;
    assert x == q * n + x % n;
    if x < 0 {
      assert (q + 1) * n == q * n + n;
      OneResidue(q + 1, n, x % n, x + n);
    } else {
      OneResidue(q, n, x % n, x);
    }
  }

  /** A value of the type stays as it is, and any other changes by a multiple of the number of values. */
  lemma CastMeaning(t: IntType, x: int)
    requires t.width >= 1
    ensures exists k: int :: Apart(Cast(t, x), x, Pow2(t.width), k)
    ensures InType(t, x) ==> Cast(t, x) == x
  {
    var n := Pow2(t.width);
    Residue(x, n);
    if InType(t, x) { NearResidue(x, n); }
    assert n == 2 * Pow2(t.width - 1);
    assert Cast(t, x) == x % n || Cast(t, x) == x % n - n;
  }

  /** `safe_atomicAdd` and `safe_atomicSub`: the old contents are returned; the location changes only
      if the result is defined. */
  method SafeAtomic(op: BinOp, t: IntType, mem: array<int>, address: nat, valIn: int) returns (before: int)
    requires op in {Add, Sub} && t.width >= 1 && address < mem.Length && InType(t, mem[address])
    modifies mem
    ensures before == old(mem[address])
    ensures mem[address] == Apply(op, t, before, Cast(t, valIn)).GetOr(before)
    ensures InType(t, mem[address])
    ensures forall i :: 0 <= i < mem.Length && i != address ==> mem[i] == old(mem[i])
  {
    var val := Cast(t, valIn);
    before := mem[address];
    GuardIsExact(op, t, before, val);
    if t.signed && Check(op, t, before, val) != Some(true) { return; }
    ApplyInType(op, t, before, val);
    mem[address] := Apply(op, t, before, val).value;
  }
}
