/** The odometer. */
module Enumerators {
  // The odometer behind the enumeration of probability settings: digits with individual bounds, the
  // last one turning fastest. Digits stand in the order of their names.

  import opened Collections

  /** `isBool` digits are read as truth values; with only one setting they read as `boolValue`. */
  datatype EnumObject = EnumObject(bound: nat, value: nat, isBool: bool, boolValue: bool, changed: bool)

  type Tuple = seq<nat>

  // ---------- mixed-radix numbers ----------

  predicate InRange(ds: Tuple, bs: seq<nat>) {
    |ds| == |bs| && forall i :: 0 <= i < |ds| ==> ds[i] < bs[i]
  }

  function Product(bs: seq<nat>): nat {
    if bs == [] then 1 else Product(bs[..|bs| - 1]) * bs[|bs| - 1]
  }

  /** The number a tuple of digits stands for. */
  function Value(ds: Tuple, bs: seq<nat>): nat
    requires |ds| == |bs|
  {
    if ds == [] then 0
    else Value(ds[..|ds| - 1], bs[..|bs| - 1]) * bs[|bs| - 1] + ds[|ds| - 1]
  }

  /** The position of the digit that the next step raises: the last one below its maximum; -1 if all
      digits are at their maximum. */
  function Turning(ds: Tuple, bs: seq<nat>): (k: int)
    requires |ds| == |bs|
    ensures -1 <= k < |ds|
  {
    if ds == [] then -1
    else if ds[|ds| - 1] + 1 < bs[|bs| - 1] then |ds| - 1
    else Turning(ds[..|ds| - 1], bs[..|bs| - 1])
  }

  /** Digits before `k` stay, digit `k` rises by one, digits after it are cleared. */
  predicate Turned(ds: Tuple, ds': Tuple, k: int) {
    && 0 <= k < |ds| == |ds'|
    && (forall i :: 0 <= i < k ==> ds'[i] == ds[i])
    && ds'[k] == ds[k] + 1
    && forall i :: k < i < |ds| ==> ds'[i] == 0
  }

  lemma {:induction false} TurningMeaning(ds: Tuple, bs: seq<nat>)
    requires InRange(ds, bs)
    ensures var k := Turning(ds, bs);
      && (k >= 0 ==> ds[k] + 1 < bs[k])
      && forall i :: k < i < |ds| ==> ds[i] + 1 == bs[i]
  {
    if ds != [] && ds[|ds| - 1] + 1 >= bs[|bs| - 1] { TurningMeaning(ds[..|ds| - 1], bs[..|bs| - 1]); }
  }

  lemma TurningUnique(ds: Tuple, bs: seq<nat>, k: int)
    requires InRange(ds, bs) && -1 <= k < |ds|
    requires k >= 0 ==> ds[k] + 1 < bs[k]
    requires forall i :: k < i < |ds| ==> ds[i] + 1 == bs[i]
    ensures k == Turning(ds, bs)
  {
    TurningMeaning(ds, bs);
  }

  lemma NextMultiple(v: nat, w: nat, n: nat)
    ensures v < w ==> v * n + n <= w * n
  {
    if v < w {
      var d := w - v;
      assert w * n == v * n + d * n;
      assert d * n >= n;
    }
  }

  lemma OneMore(v: nat, n: nat)
    ensures (v + 1) * n == v * n + n
  {}

  lemma {:induction false} ValueBound(ds: Tuple, bs: seq<nat>)
    requires InRange(ds, bs)
    ensures Value(ds, bs) < Product(bs)
  {
    if ds != [] {
      var n, v, p := bs[|bs| - 1], Value(ds[..|ds| - 1], bs[..|bs| - 1]), Product(bs[..|bs| - 1]);
      ValueBound(ds[..|ds| - 1], bs[..|bs| - 1]);
      NextMultiple(v, p, n);
    }
  }

  /** One step of the odometer adds one to the number. */
  lemma {:induction false} TurnAddsOne(ds: Tuple, ds': Tuple, bs: seq<nat>)
    requires InRange(ds, bs) && Turned(ds, ds', Turning(ds, bs))
    ensures InRange(ds', bs) && Value(ds', bs) == Value(ds, bs) + 1
  {
    var last := |ds| - 1;
    TurningMeaning(ds, bs);
    if Turning(ds, bs) == last {
      assert ds'[..last] == ds[..last];
    } else {
      TurnAddsOne(ds[..last], ds'[..last], bs[..last]);
      OneMore(Value(ds[..last], bs[..last]), bs[last]);
    }
  }

  /** No digit can rise exactly at the largest number. */
  lemma {:induction false} LastValue(ds: Tuple, bs: seq<nat>)
    requires InRange(ds, bs)
    ensures Turning(ds, bs) == -1 <==> Value(ds, bs) + 1 == Product(bs)
  {
    if ds != [] {
      var n, v, p := bs[|bs| - 1], Value(ds[..|ds| - 1], bs[..|bs| - 1]), Product(bs[..|bs| - 1]);
      LastValue(ds[..|ds| - 1], bs[..|bs| - 1]);
      ValueBound(ds[..|ds| - 1], bs[..|bs| - 1]);
      OneMore(v, n);
      NextMultiple(v + 1, p, n);
    }
  }

  /** Different tuples stand for different numbers. */
  lemma {:induction false} ValueInjective(a: Tuple, b: Tuple, bs: seq<nat>)
    requires InRange(a, bs) && InRange(b, bs) && Value(a, bs) == Value(b, bs)
    ensures a == b
  {
    if a != [] {
      var last := |a| - 1;
      var n, v, w := bs[last], Value(a[..last], bs[..last]), Value(b[..last], bs[..last]);
      SameQuotient(v, w, n, a[last], b[last]);
      ValueInjective(a[..last], b[..last], bs[..last]);
      assert a == a[..last] + [a[last]] && b == b[..last] + [b[last]];
    }
  }

  lemma SameQuotient(v: nat, w: nat, n: nat, x: nat, y: nat)
    requires x < n && y < n && v * n + x == w * n + y
    ensures v == w && x == y
  {
    NextMultiple(v, w, n);
    NextMultiple(w, v, n);
  }

  predicate Lexicographic(a: Tuple, b: Tuple) {
    exists k :: 0 <= k < |a| == |b| && a[..k] == b[..k] && a[k] < b[k]
  }

  /** Smaller numbers stand for lexicographically smaller tuples. */
  lemma {:induction false} ValueOrder(a: Tuple, b: Tuple, bs: seq<nat>)
    requires InRange(a, bs) && InRange(b, bs) && Value(a, bs) < Value(b, bs)
    ensures Lexicographic(a, b)
  {
    if a != [] {
      var last := |a| - 1;
      var n, v, w := bs[last], Value(a[..last], bs[..last]), Value(b[..last], bs[..last]);
      NextMultiple(w, v, n);
      if v == w {
        ValueInjective(a[..last], b[..last], bs[..last]);
        assert a[..last] == b[..last] && a[last] < b[last];
      } else {
        ValueOrder(a[..last], b[..last], bs[..last]);
        var k :| 0 <= k < last && a[..last][..k] == b[..last][..k] && a[..last][k] < b[..last][k];
        assert a[..k] == a[..last][..k] && b[..k] == b[..last][..k];
      }
    }
  }

  lemma {:induction false} ZeroValue(ds: Tuple, bs: seq<nat>)
    requires |ds| == |bs| && forall i :: 0 <= i < |ds| ==> ds[i] == 0
    ensures Value(ds, bs) == 0
  {
    if ds != [] { ZeroValue(ds[..|ds| - 1], bs[..|bs| - 1]); }
  }

  // ---------- the odometer ----------

  function Digits(objs: seq<EnumObject>): (r: Tuple)
    ensures |r| == |objs| && forall i :: 0 <= i < |r| ==> r[i] == objs[i].value
  {
    Map(objs, (o: EnumObject) => o.value)
  }

  function Bounds(objs: seq<EnumObject>): (r: seq<nat>)
    ensures |r| == |objs| && forall i :: 0 <= i < |r| ==> r[i] == objs[i].bound
  {
    seq(|objs|, i requires 0 <= i < |objs| => objs[i].bound)
  }

  predicate AllBelow(objs: seq<EnumObject>) {
    forall i :: 0 <= i < |objs| ==> objs[i].value < objs[i].bound
  }

  predicate NoneChanged(objs: seq<EnumObject>) {
    forall i :: 0 <= i < |objs| ==> !objs[i].changed
  }

  predicate Cleared(a: seq<EnumObject>, b: seq<EnumObject>) {
    |a| == |b| && forall i :: 0 <= i < |a| ==> b[i] == a[i].(changed := false)
  }

  /** One digit has turned and is the only one marked as changed; or all digits were at their maximum
      and stay there. */
  predicate Stepped(a: seq<EnumObject>, b: seq<EnumObject>, ok: bool) {
    && Bounds(b) == Bounds(a)
    && var k := Turning(Digits(a), Bounds(a));
      if ok then Turned(Digits(a), Digits(b), k) && forall i :: 0 <= i < |b| ==> (b[i].changed <==> i == k)
      else k == -1 && Digits(b) == Digits(a)
  }

  lemma DigitRaised(a: seq<EnumObject>, b: seq<EnumObject>, k: nat)
    requires k < |a| == |b| && a[k].value + 1 < a[k].bound
    requires AllBelow(a) && NoneChanged(a)
    requires forall i :: k < i < |a| ==> a[i].value + 1 == a[i].bound && b[i] == a[i].(value := 0)
    requires forall i :: 0 <= i < k ==> b[i] == a[i]
    requires b[k] == a[k].(value := a[k].value + 1, changed := true)
    ensures Stepped(a, b, true) && AllBelow(b)
  {
    TurningUnique(Digits(a), Bounds(a), k);
    assert Bounds(b) == Bounds(a);
  }

  lemma NoDigitRaised(a: seq<EnumObject>)
    requires forall i :: 0 <= i < |a| ==> a[i].value + 1 == a[i].bound
    ensures Stepped(a, a, false)
  {
    TurningUnique(Digits(a), Bounds(a), -1);
  }

  lemma StepMeaning(a: seq<EnumObject>, cleared: seq<EnumObject>, b: seq<EnumObject>, ok: bool)
    requires AllBelow(a) && Cleared(a, cleared) && Stepped(cleared, b, ok)
    ensures Stepped(a, b, ok)
    ensures ok <==> Value(Digits(a), Bounds(a)) + 1 < Product(Bounds(a))
    ensures ok ==> Value(Digits(b), Bounds(b)) == Value(Digits(a), Bounds(a)) + 1
  {
    var ds, bs := Digits(a), Bounds(a);
    assert Digits(cleared) == ds && Bounds(cleared) == bs;
    LastValue(ds, bs);
    ValueBound(ds, bs);
    if ok { TurnAddsOne(ds, Digits(b), bs); }
  }

  class Enumerator {
    const objs: array<EnumObject>
    var forwardPos: int
    var backwardPos: int

    /** The cursors stand on the last two digits, and every digit is below its bound. */
    ghost predicate Valid()
      reads this, objs
    {
      && objs.Length >= 2 && forwardPos == objs.Length - 1 && backwardPos == objs.Length - 2
      && AllBelow(objs[..])
    }

    ghost function Current(): Tuple
      reads objs
    {
      Digits(objs[..])
    }

    ghost function Limits(): seq<nat>
      reads objs
    {
      Bounds(objs[..])
    }

    constructor (elems: seq<EnumObject>)
      requires |elems| >= 2 && forall i :: 0 <= i < |elems| ==> elems[i].value == 0 < elems[i].bound
      ensures fresh(objs) && objs[..] == elems
    {
      objs := new EnumObject[|elems|](i requires 0 <= i < |elems| => elems[i]);
      forwardPos, backwardPos := |elems|, |elems|;
      new;
      assert objs[..] == elems;
    }

    method ResetPos()
      requires objs.Length >= 2
      modifies this
      ensures forwardPos == objs.Length - 1 && backwardPos == objs.Length - 2
    {
      forwardPos := objs.Length;
      forwardPos := forwardPos - 1;
      backwardPos := forwardPos;
      backwardPos := backwardPos - 1;
    }

    method Begin()
      requires objs.Length >= 2 && AllBelow(objs[..])
      modifies this
      ensures Valid()
    {
      ResetPos();
    }

    /** Raises one digit, unless it is at its maximum. */
    method NextDigit(k: nat) returns (ok: bool)
      requires k < objs.Length && objs[k].value < objs[k].bound
      modifies objs
      ensures ok <==> old(objs[k].value) + 1 < objs[k].bound
      ensures ok ==> objs[..] == old(objs[..])[k := old(objs[k]).(value := old(objs[k]).value + 1, changed := true)]
      ensures !ok ==> objs[..] == old(objs[..])
    {
      objs[k] := objs[k].(value := objs[k].value + 1);
      if objs[k].value < objs[k].bound {
        objs[k] := objs[k].(changed := true);
        ok := true;
      } else {
        objs[k] := objs[k].(value := objs[k].value - 1);
        ok := false;
      }
    }

    method ResetAllChanged()
      modifies objs
      ensures Cleared(old(objs[..]), objs[..])
    {
      for i := 0 to objs.Length
        invariant forall j :: 0 <= j < i ==> objs[j] == old(objs[j]).(changed := false)
        invariant forall j :: i <= j < objs.Length ==> objs[j] == old(objs[j])
      {
        objs[i] := objs[i].(changed := false);
      }
    }

    method ResetAfterBackwardPos()
      requires 0 <= backwardPos < objs.Length
      modifies this`forwardPos, objs
      ensures forwardPos == backwardPos + 1
      ensures forall i :: 0 <= i <= backwardPos ==> objs[i] == old(objs[i])
      ensures forall i :: backwardPos < i < objs.Length ==> objs[i] == old(objs[i]).(value := 0)
    {
      var i := backwardPos + 1;
      while i != objs.Length
        invariant backwardPos < i <= objs.Length
        invariant forall j :: 0 <= j <= backwardPos || i <= j < objs.Length ==> objs[j] == old(objs[j])
        invariant forall j :: backwardPos < j < i ==> objs[j] == old(objs[j]).(value := 0)
        decreases objs.Length - i
        modifies objs
      {
        objs[i] := objs[i].(value := 0);
        i := i + 1;
      }
      forwardPos := backwardPos;
      forwardPos := forwardPos + 1;
    }

    /** Turns the last digit at or before the backward cursor that can still rise. */
    method RollBackCurrentPos() returns (ok: bool)
      requires objs.Length >= 2 && 0 <= backwardPos < objs.Length
      requires AllBelow(objs[..]) && NoneChanged(objs[..])
      requires forall i :: backwardPos < i < objs.Length ==> objs[i].value + 1 == objs[i].bound
      modifies this, objs
      ensures Stepped(old(objs[..]), objs[..], ok) && (ok ==> Valid())
      decreases backwardPos
    {
      ghost var k := backwardPos;
      ok := NextDigit(backwardPos);
      if ok {
        ResetAfterBackwardPos();
        ResetPos();
        DigitRaised(old(objs[..]), objs[..], k);
      } else if backwardPos == 0 {
        NoDigitRaised(objs[..]);
      } else {
        backwardPos := backwardPos - 1;
        ok := RollBackCurrentPos();
      }
    }

    /** One step: the number rises by one and exactly the raised digit is marked as changed; or all
        digits are at their maximum and nothing changes. */
    method Next() returns (ok: bool)
      requires Valid()
      modifies this, objs
      ensures Limits() == old(Limits())
      ensures ok <==> Value(old(Current()), Limits()) + 1 < Product(Limits())
      ensures ok ==> Valid() && Value(Current(), Limits()) == Value(old(Current()), Limits()) + 1
      ensures Stepped(old(objs[..]), objs[..], ok)
    {
      ResetAllChanged();
      ghost var cleared := objs[..];
      ok := NextDigit(forwardPos);
      if ok {
        DigitRaised(cleared, objs[..], objs.Length - 1);
      } else {
        forwardPos := forwardPos + 1;
        ok := RollBackCurrentPos();
      }
      StepMeaning(old(objs[..]), cleared, objs[..], ok);
    }

    method GetElem(k: nat) returns (rv: int)
      requires k < objs.Length
      ensures rv == Reading(objs[k])
    {
      rv := objs[k].value;
      if objs[k].isBool {
        if objs[k].bound == 1 {
          rv := if objs[k].boolValue then 1 else 0;
        } else {
          rv := if rv != 0 then 1 else 0;
        }
      }
    }
  }

  /** The loop `for (e = begin(); e; e = e->next())`: it visits every tuple below the bounds exactly
      once, in the order of the numbers they stand for. */
  method VisitAll(e: Enumerator) returns (visited: seq<Tuple>)
    requires e.objs.Length >= 2 && forall i :: 0 <= i < e.objs.Length ==> e.objs[i].value == 0 < e.objs[i].bound
    modifies e, e.objs
    ensures |visited| == Product(old(e.Limits()))
    ensures forall i :: 0 <= i < |visited| ==> InRange(visited[i], old(e.Limits())) && Value(visited[i], old(e.Limits())) == i
  {
    ghost var bs := e.Limits();
    e.Begin();
    visited := [];
    ZeroValue(e.Current(), bs);
    var more := true;
    while more
      invariant more ==> e.Valid() && e.Limits() == bs && |visited| == Value(e.Current(), bs)
      invariant !more ==> |visited| == Product(bs)
      invariant forall i :: 0 <= i < |visited| ==> InRange(visited[i], bs) && Value(visited[i], bs) == i
      decreases Product(bs) - |visited|, more
    {
      ValueBound(e.Current(), bs);
      var tuple := ReadDigits(e);
      visited := visited + [tuple];
      more := e.Next();
    }
  }

  method ReadDigits(e: Enumerator) returns (ds: Tuple)
    ensures ds == e.Current()
  {
    ds := [];
    for i := 0 to e.objs.Length
      invariant ds == Digits(e.objs[..i])
    {
      assert e.objs[..i + 1] == e.objs[..i] + [e.objs[i]];
      ds := ds + [e.objs[i].value];
    }
    assert e.objs[..e.objs.Length] == e.objs[..];
  }

  /** Counting through all numbers meets every tuple, and none twice. */
  lemma EveryTupleOnce(visited: seq<Tuple>, bs: seq<nat>, ds: Tuple)
    requires |visited| == Product(bs) && InRange(ds, bs)
    requires forall i :: 0 <= i < |visited| ==> InRange(visited[i], bs) && Value(visited[i], bs) == i
    ensures Value(ds, bs) < |visited| && forall i :: 0 <= i < |visited| ==> (visited[i] == ds <==> i == Value(ds, bs))
    ensures forall i, j :: 0 <= i < j < |visited| ==> Lexicographic(visited[i], visited[j])
  {
    ValueBound(ds, bs);
    ValueInjective(visited[Value(ds, bs)], ds, bs);
    forall i, j | 0 <= i < j < |visited| ensures Lexicographic(visited[i], visited[j]) {
      ValueOrder(visited[i], visited[j], bs);
    }
  }

  // ---------- elements ----------

  function Reading(o: EnumObject): int {
    if !o.isBool then o.value
    else if (if o.bound == 1 then o.boolValue else o.value != 0) then 1 else 0
  }

  function BoolElemOfBool(value: bool): EnumObject { EnumObject(if value then 2 else 1, 0, true, false, false) }

  function BoolElem(value: int): EnumObject {
    if value == 0 then EnumObject(1, 0, true, false, false)
    else if value == 100 then EnumObject(1, 0, true, true, false)
    else EnumObject(2, 0, true, false, false)
  }

  /** The readings an element goes through: a fixed probability has one setting, any other both; an
      element added for a flag reads as true only if the flag is set. */
  lemma BoolReadings(value: int, flag: bool, r: int)
    ensures (exists v: nat :: v < BoolElem(value).bound && Reading(BoolElem(value).(value := v)) == r) <==>
      (r == 0 && value != 100) || (r == 1 && value != 0)
    ensures (exists v: nat :: v < BoolElemOfBool(flag).bound && Reading(BoolElemOfBool(flag).(value := v)) == r) <==>
      r == 0 || (r == 1 && flag)
  {
    assert Reading(BoolElem(value).(value := 0)) == if value == 100 then 1 else 0;
    assert BoolElem(value).bound == 2 ==> Reading(BoolElem(value).(value := 1)) == 1;
    assert Reading(BoolElemOfBool(flag).(value := 0)) == 0;
    assert flag ==> Reading(BoolElemOfBool(flag).(value := 1)) == 1;
  }
}
