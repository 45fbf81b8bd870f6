/** Read and write sets. */
module EffectSets {
  // Read and write sets over structured variables: what the queries say about overlapping storage,
  // and what consolidation keeps.

  import opened Collections

  datatype Type = Scalar | Struct(fields: seq<Type>) | Union(fields: seq<Type>)

  /** A declared variable, or member number `fid` of one. */
  datatype Var = Top(id: nat, ty: Type) | Member(of: Var, fid: nat)

  function TypeOf(v: Var): Type {
    match v
    case Top(_, ty) => ty
    case Member(of, fid) => var t := TypeOf(of); if !t.Scalar? && fid < |t.fields| then t.fields[fid] else Scalar
  }

  predicate IsVar(v: Var) {
    v.Member? ==> IsVar(v.of) && !TypeOf(v.of).Scalar? && v.fid < |TypeOf(v.of).fields|
  }

  function Depth(v: Var): nat { if v.Top? then 0 else 1 + Depth(v.of) }

  // ---------- the queries ----------

  predicate IsRead(rs: seq<Var>, v: Var)
    decreases v
  {
    v in rs || (v.Member? && TypeOf(v.of).Struct? && IsRead(rs, v.of))
  }

  predicate IsWritten(ws: seq<Var>, v: Var)
    decreases v
  {
    v in ws || (v.Member? && IsWritten(ws, v.of))
  }

  predicate FieldIsRead(rs: seq<Var>, v: Var)
    decreases TypeOf(v)
  {
    !TypeOf(v).Scalar? && exists j: nat :: j < |TypeOf(v).fields| && (IsRead(rs, Member(v, j)) || FieldIsRead(rs, Member(v, j)))
  }

  predicate FieldIsWritten(ws: seq<Var>, v: Var)
    decreases TypeOf(v)
  {
    !TypeOf(v).Scalar? && exists j: nat :: j < |TypeOf(v).fields| && (IsWritten(ws, Member(v, j)) || FieldIsWritten(ws, Member(v, j)))
  }

  /** The innermost union that `v` is or is part of. */
  function ContainerUnion(v: Var): Option<Var>
    decreases v
  {
    if TypeOf(v).Union? then Some(v) else if v.Member? then ContainerUnion(v.of) else None
  }

  predicate SameUnion(v: Var, w: Var) {
    ContainerUnion(v).Some? && ContainerUnion(v) == ContainerUnion(w)
  }

  predicate SiblingUnionField(xs: seq<Var>, v: Var) {
    exists x :: x in xs && SameUnion(v, x)
  }

  predicate IsReadPartially(rs: seq<Var>, v: Var) {
    IsRead(rs, v) || FieldIsRead(rs, v) || SiblingUnionField(rs, v)
  }

  predicate IsWrittenPartially(ws: seq<Var>, v: Var) {
    IsWritten(ws, v) || FieldIsWritten(ws, v) || SiblingUnionField(ws, v)
  }

  // ---------- what they mean ----------

  /** `v` is `w` or part of it. */
  predicate Within(v: Var, w: Var)
    decreases v
  {
    v == w || (v.Member? && Within(v.of, w))
  }

  /** `v` is `w` or part of it, and no union lies between. */
  predicate StructWithin(v: Var, w: Var)
    decreases v
  {
    v == w || (v.Member? && TypeOf(v.of).Struct? && StructWithin(v.of, w))
  }

  lemma {:induction false} IsReadMeaning(rs: seq<Var>, v: Var)
    ensures IsRead(rs, v) <==> exists r :: r in rs && StructWithin(v, r)
    decreases v
  {
    if v.Member? { IsReadMeaning(rs, v.of); }
    if v in rs { assert StructWithin(v, v); }
  }

  lemma {:induction false} IsWrittenMeaning(ws: seq<Var>, v: Var)
    ensures IsWritten(ws, v) <==> exists w :: w in ws && Within(v, w)
    decreases v
  {
    if v.Member? { IsWrittenMeaning(ws, v.of); }
    if v in ws { assert Within(v, v); }
  }

  lemma {:induction false} WithinTransitive(a: Var, b: Var, c: Var)
    requires Within(a, b) && Within(b, c)
    ensures Within(a, c)
    decreases a
  {
    if a != b { WithinTransitive(a.of, b, c); }
  }

  lemma {:induction false} WithinDepth(v: Var, w: Var)
    requires Within(v, w)
    ensures Depth(w) <= Depth(v) && (Depth(w) == Depth(v) ==> v == w)
    decreases v
  {
    if v != w { WithinDepth(v.of, w); }
  }

  /** A variable inside an aggregate is inside one of its members. */
  lemma {:induction false} InsideMember(v: Var, w: Var)
    requires Within(v, w) && v != w && IsVar(v)
    ensures !TypeOf(w).Scalar? && exists j: nat :: j < |TypeOf(w).fields| && Within(v, Member(w, j))
    decreases v
  {
    if v.of == w { assert Within(v, Member(w, v.fid)); } else { InsideMember(v.of, w); }
  }

  lemma MemberIsVar(v: Var, j: nat)
    requires IsVar(v) && !TypeOf(v).Scalar? && j < |TypeOf(v).fields|
    ensures IsVar(Member(v, j)) && Within(Member(v, j), v) && TypeOf(Member(v, j)) == TypeOf(v).fields[j]
  {
    assert Within(v, v);
  }

  /** Some variable strictly inside `v` is written exactly if a write names one, or `v` or a part
      of it is inside a written one. */
  lemma {:induction false} FieldIsWrittenMeaning(ws: seq<Var>, v: Var)
    requires IsVar(v) && forall w :: w in ws ==> IsVar(w)
    ensures IsWritten(ws, v) || FieldIsWritten(ws, v) <==> exists w :: w in ws && (Within(v, w) || Within(w, v))
    decreases TypeOf(v)
  {
    IsWrittenMeaning(ws, v);
    if !TypeOf(v).Scalar? {
      forall j: nat | j < |TypeOf(v).fields|
        ensures IsWritten(ws, Member(v, j)) || FieldIsWritten(ws, Member(v, j)) <==>
          exists w :: w in ws && (Within(Member(v, j), w) || Within(w, Member(v, j)))
      {
        MemberIsVar(v, j);
        FieldIsWrittenMeaning(ws, Member(v, j));
      }
    }
    forall w | w in ws ensures Below(w, v) { InOrAround(w, v); }
    if FieldIsWritten(ws, v) {
      var j: nat :| j < |TypeOf(v).fields| && (IsWritten(ws, Member(v, j)) || FieldIsWritten(ws, Member(v, j)));
      var w :| w in ws && (Within(Member(v, j), w) || Within(w, Member(v, j)));
      assert Below(w, v);
    }
    if w :| w in ws && (Within(v, w) || Within(w, v)) { assert Below(w, v); }
  }

  /** How a variable relates to the members of `v`. */
  ghost predicate Below(w: Var, v: Var) {
    && (forall j: nat {:trigger Member(v, j)} :: Within(Member(v, j), w) || Within(w, Member(v, j)) ==> Within(v, w) || Within(w, v))
    && (Within(w, v) ==> w == v || (!TypeOf(v).Scalar? && exists j: nat :: j < |TypeOf(v).fields| && Within(w, Member(v, j))))
  }

  lemma InOrAround(w: Var, v: Var)
    requires IsVar(w)
    ensures Below(w, v)
  {
    forall j: nat | Within(w, Member(v, j)) ensures Within(w, v) {
      assert Within(v, v) && Within(Member(v, j), v);
      WithinTransitive(w, Member(v, j), v);
    }
    forall j: nat | Within(Member(v, j), w) ensures Within(v, w) || Within(w, v) { assert Within(v, v); }
    if Within(w, v) && w != v { InsideMember(w, v); }
  }

  lemma {:induction false} FieldIsReadMeaning(rs: seq<Var>, v: Var)
    requires IsVar(v) && forall r :: r in rs ==> IsVar(r)
    ensures IsRead(rs, v) || FieldIsRead(rs, v) <==> exists r :: r in rs && (StructWithin(v, r) || Within(r, v))
    decreases TypeOf(v)
  {
    IsReadMeaning(rs, v);
    if !TypeOf(v).Scalar? {
      forall j: nat | j < |TypeOf(v).fields|
        ensures IsRead(rs, Member(v, j)) || FieldIsRead(rs, Member(v, j)) <==>
          exists r :: r in rs && (StructWithin(Member(v, j), r) || Within(r, Member(v, j)))
      {
        MemberIsVar(v, j);
        FieldIsReadMeaning(rs, Member(v, j));
      }
    }
    forall r | r in rs ensures ReadBelow(r, v) { StructInOrAround(r, v); }
    if FieldIsRead(rs, v) {
      var j: nat :| j < |TypeOf(v).fields| && (IsRead(rs, Member(v, j)) || FieldIsRead(rs, Member(v, j)));
      var r :| r in rs && (StructWithin(Member(v, j), r) || Within(r, Member(v, j)));
      assert ReadBelow(r, v);
    }
    if r :| r in rs && (StructWithin(v, r) || Within(r, v)) { assert ReadBelow(r, v); }
  }

  ghost predicate ReadBelow(r: Var, v: Var) {
    && (forall j: nat {:trigger Member(v, j)} :: StructWithin(Member(v, j), r) || Within(r, Member(v, j)) ==> StructWithin(v, r) || Within(r, v))
    && (Within(r, v) ==> r == v || (!TypeOf(v).Scalar? && exists j: nat :: j < |TypeOf(v).fields| && Within(r, Member(v, j))))
  }

  lemma StructInOrAround(r: Var, v: Var)
    requires IsVar(r)
    ensures ReadBelow(r, v)
  {
    InOrAround(r, v);
    assert Below(r, v);
    forall j: nat | StructWithin(Member(v, j), r) ensures StructWithin(v, r) || Within(r, v) {
      if Member(v, j) == r { assert Within(v, v); }
    }
    forall j: nat | Within(r, Member(v, j)) ensures Within(r, v) {
      assert Within(v, v) && Within(Member(v, j), v);
      WithinTransitive(r, Member(v, j), v);
    }
  }

  /** The exact meaning of the two queries that decide conflicts. */
  lemma PartialQueriesMeaning(xs: seq<Var>, v: Var)
    requires IsVar(v) && forall x :: x in xs ==> IsVar(x)
    ensures IsWrittenPartially(xs, v) <==> exists w :: w in xs && (Within(v, w) || Within(w, v) || SameUnion(v, w))
    ensures IsReadPartially(xs, v) <==> exists r :: r in xs && (StructWithin(v, r) || Within(r, v) || SameUnion(v, r))
  {
    FieldIsWrittenMeaning(xs, v);
    FieldIsReadMeaning(xs, v);
  }

  // ---------- overlapping storage ----------

  /** Two variables share storage: one is part of the other, or they are in different members of one
      union. */
  ghost predicate Overlap(v: Var, w: Var) {
    || Within(v, w) || Within(w, v)
    || exists u: Var, i: nat, j: nat :: i != j && TypeOf(u).Union? && Within(v, Member(u, i)) && Within(w, Member(u, j))
  }

  /** No union contains another one. */
  predicate OneUnion(v: Var)
    decreases v
  {
    v.Member? ==> OneUnion(v.of) && (TypeOf(v).Union? ==> ContainerUnion(v.of).None?)
  }

  lemma {:induction false} UnionAround(v: Var, u: Var)
    requires OneUnion(v) && TypeOf(u).Union? && Within(v, u)
    ensures ContainerUnion(v) == Some(u)
    decreases v
  {
    if v != u { UnionAround(v.of, u); }
  }

  lemma {:induction false} ContainerAround(v: Var)
    requires ContainerUnion(v).Some?
    ensures Within(v, ContainerUnion(v).value) && TypeOf(ContainerUnion(v).value).Union?
    decreases v
  {
    if !TypeOf(v).Union? { ContainerAround(v.of); }
  }

  lemma MembersShareUnion(v: Var, w: Var)
    requires OneUnion(v) && OneUnion(w) && Overlap(v, w) && !Within(v, w) && !Within(w, v)
    ensures SameUnion(v, w)
  {
    var u: Var, i: nat, j: nat :| i != j && TypeOf(u).Union? && Within(v, Member(u, i)) && Within(w, Member(u, j));
    assert Within(u, u);
    WithinTransitive(v, Member(u, i), u);
    WithinTransitive(w, Member(u, j), u);
    UnionAround(v, u);
    UnionAround(w, u);
  }

  /** An overlapping write is missed if and only if the two variables lie apart and different unions
      are the innermost ones around them, so that one is in a union nested in the other's. */
  lemma WriteMissedExactly(v: Var, w: Var)
    requires IsVar(v) && IsVar(w) && Overlap(v, w)
    ensures !IsWrittenPartially([w], v) <==> !Within(v, w) && !Within(w, v) && ContainerUnion(v) != ContainerUnion(w)
  {
    PartialQueriesMeaning([w], v);
    assert forall x :: x in [w] <==> x == w;
    if !Within(v, w) && !Within(w, v) { ApartInUnion(v, w); }
  }

  /** An overlapping read is missed if and only if the variable is no part of it within structures,
      it is no part of the variable, and different unions are the innermost ones around them. */
  lemma ReadMissedExactly(v: Var, r: Var)
    requires IsVar(v) && IsVar(r) && Overlap(v, r)
    ensures !IsReadPartially([r], v) <==> !StructWithin(v, r) && !Within(r, v) && ContainerUnion(v) != ContainerUnion(r)
  {
    PartialQueriesMeaning([r], v);
    assert forall x :: x in [r] <==> x == r;
    if ContainerUnion(v).None? {
      if Within(v, r) { NoUnionBetween(v, r); } else if !Within(r, v) { ApartInUnion(v, r); }
    }
  }

  lemma {:induction false} NoUnionBetween(v: Var, r: Var)
    requires IsVar(v) && Within(v, r) && ContainerUnion(v).None?
    ensures StructWithin(v, r)
    decreases v
  {
    if v != r { NoUnionBetween(v.of, r); }
  }

  lemma ApartInUnion(v: Var, w: Var)
    requires Overlap(v, w) && !Within(v, w) && !Within(w, v)
    ensures ContainerUnion(v).Some? && ContainerUnion(w).Some?
  {
    var u: Var, i: nat, j: nat :| i != j && TypeOf(u).Union? && Within(v, Member(u, i)) && Within(w, Member(u, j));
    assert Within(u, u);
    WithinTransitive(v, Member(u, i), u);
    WithinTransitive(w, Member(u, j), u);
    InUnion(v, u);
    InUnion(w, u);
  }

  lemma {:induction false} InUnion(v: Var, u: Var)
    requires TypeOf(u).Union? && Within(v, u)
    ensures ContainerUnion(v).Some?
    decreases v
  {
    if v != u { InUnion(v.of, u); }
  }

  /** Without nested unions no overlap with a written variable is missed. */
  lemma WriteConflictsFound(ws: seq<Var>, v: Var, w: Var)
    requires IsVar(v) && (forall x :: x in ws ==> IsVar(x)) && OneUnion(v) && OneUnion(w)
    requires w in ws && Overlap(v, w)
    ensures IsWrittenPartially(ws, v)
  {
    WriteMissedExactly(v, w);
    if !Within(v, w) && !Within(w, v) { MembersShareUnion(v, w); }
    PartialQueriesMeaning([w], v);
    PartialQueriesMeaning(ws, v);
  }

  lemma {:induction false} StructOrUnion(v: Var, r: Var)
    requires IsVar(v) && OneUnion(v) && Within(v, r)
    ensures StructWithin(v, r) || (ContainerUnion(v).Some? && Within(ContainerUnion(v).value, r))
    ensures ContainerUnion(v).Some? && ContainerUnion(v).value != r && Within(ContainerUnion(v).value, r) && v != ContainerUnion(v).value
      ==> !StructWithin(v, r)
    decreases v
  {
    if v != r {
      StructOrUnion(v.of, r);
      if TypeOf(v.of).Union? {
        UnionAround(v, v.of) by { assert Within(v.of, v.of); }
      } else if TypeOf(v).Union? {
        assert ContainerUnion(v.of).None?;
      } else if ContainerUnion(v).Some? {
        ContainerAround(v);
      }
    } else if ContainerUnion(v).Some? && Within(ContainerUnion(v).value, r) {
      ContainerAround(v);
      WithinDepth(v, ContainerUnion(v).value);
      WithinDepth(ContainerUnion(v).value, r);
    }
  }

  /** A read variable that overlaps `v` is missed exactly if it properly contains the union around
      `v`: reading a structure does not count as reading the members of the unions inside it. */
  lemma ReadConflictsMissed(v: Var, r: Var)
    requires IsVar(v) && IsVar(r) && OneUnion(v) && OneUnion(r) && Overlap(v, r)
    ensures !IsReadPartially([r], v) <==>
      var u := ContainerUnion(v); u.Some? && u.value != v && u.value != r && Within(u.value, r)
  {
    ReadMissedExactly(v, r);
    var u := ContainerUnion(v);
    if !Within(v, r) && !Within(r, v) {
      MembersShareUnion(v, r);
      ContainerAround(v);
      ContainerAround(r);
      if Within(u.value, r) && u.value != r { ProperlyInside(u.value, r); }
    } else if Within(v, r) {
      MissedAround(v, r);
    } else if u.Some? && Within(u.value, r) && u.value != r {
      ContainerAround(v);
      WithinTransitive(v, u.value, r);
    }
  }

  lemma ProperlyInside(u: Var, r: Var)
    requires Within(u, r) && u != r
    ensures !Within(r, u)
  {
    WithinDepth(u, r);
    if Within(r, u) { WithinDepth(r, u); }
  }

  lemma MissedAround(v: Var, r: Var)
    requires IsVar(v) && OneUnion(v) && OneUnion(r) && Within(v, r)
    ensures !StructWithin(v, r) && !Within(r, v) && !SameUnion(v, r) <==>
      var u := ContainerUnion(v); u.Some? && u.value != v && u.value != r && Within(u.value, r)
  {
    StructOrUnion(v, r);
    var u := ContainerUnion(v);
    if Within(r, v) { WithinDepth(v, r); WithinDepth(r, v); }
    if u.Some? {
      ContainerAround(v);
      if u.value == r { assert ContainerUnion(r) == Some(r); }
      if ContainerUnion(r) == u && Within(u.value, r) {
        ContainerAround(r);
        WithinDepth(u.value, r);
        WithinDepth(r, u.value);
      }
      if u.value == v && v != r { AboveUnion(v, r); }
    }
  }

  lemma AboveUnion(v: Var, r: Var)
    requires IsVar(v) && OneUnion(v) && TypeOf(v).Union? && Within(v, r) && v != r
    ensures StructWithin(v, r)
  {
    StructOrUnion(v.of, r);
  }

  /** A union inside a structure inside a union. */
  const INNER: Type := Union([Scalar, Scalar])
  const OUTER: Var := Top(0, Union([Struct([INNER]), Scalar]))
  const DEEP: Var := Member(Member(Member(OUTER, 0), 0), 0)
  const FLAT: Var := Member(OUTER, 1)

  /** With nested unions two overlapping variables may be connected by no query. No type that the
      generator makes is like that. */
  lemma NestedUnionsAreMissed()
    ensures IsVar(DEEP) && IsVar(FLAT) && Overlap(DEEP, FLAT) && !IsWrittenPartially([FLAT], DEEP)
  {
    var s, i := Member(OUTER, 0), Member(Member(OUTER, 0), 0);
    assert TypeOf(s) == Struct([INNER]) && TypeOf(i) == INNER;
    assert IsVar(OUTER) && IsVar(s) && IsVar(i) && IsVar(DEEP) && IsVar(FLAT);
    assert Within(s, s) && Within(i, s) && Within(DEEP, s) && Within(FLAT, FLAT);
    assert TypeOf(OUTER).Union? && Within(DEEP, Member(OUTER, 0)) && Within(FLAT, Member(OUTER, 1));
    assert Overlap(DEEP, FLAT);
    assert TypeOf(DEEP) == Scalar && TypeOf(FLAT) == Scalar && ContainerUnion(OUTER) == Some(OUTER);
    assert ContainerUnion(DEEP.of) == Some(i) && ContainerUnion(FLAT.of) == Some(OUTER);
    assert ContainerUnion(DEEP) == Some(i);
    assert ContainerUnion(FLAT) == Some(OUTER);
    assert !Within(OUTER, FLAT) && !Within(s, FLAT) && !Within(i, FLAT) && !Within(DEEP, FLAT);
    assert !Within(OUTER, DEEP) && !Within(FLAT, DEEP);
    WriteMissedExactly(DEEP, FLAT);
  }

  /** A structure that contains a union: reading the structure is not seen to conflict with writing a
      member of the union. */
  lemma ReadOfStructIsMissed()
    ensures var r := Top(0, Struct([INNER])); var v := Member(Member(r, 0), 0);
      IsVar(v) && IsVar(r) && OneUnion(v) && Within(v, r) && !IsReadPartially([r], v)
  {
    var r := Top(0, Struct([INNER]));
    var u := Member(r, 0);
    var v := Member(u, 0);
    assert TypeOf(u) == INNER && TypeOf(v) == Scalar;
    assert Within(r, r) && Within(u, r) && Within(v, r);
    assert ContainerUnion(r).None? && ContainerUnion(v) == Some(u);
    assert OneUnion(v) && OneUnion(r);
    ReadConflictsMissed(v, r);
  }

  // ---------- the types the generator makes ----------

  /** A new structure has bit-fields and fields of the types there are. */
  ghost predicate NextStruct(types: seq<Type>, t: Type) {
    t.Struct? && forall f :: f in t.fields ==> f.Scalar? || f in types
  }

  /** A new union has bit-fields and fields of those types that are no unions. */
  ghost predicate NextUnion(types: seq<Type>, t: Type) {
    t.Union? && forall f :: f in t.fields ==> f.Scalar? || (f in types && !f.Union?)
  }

  /** `GenerateAllTypes`: simple types and structures first, `structs` types in all, then unions. */
  ghost predicate Generated(types: seq<Type>, structs: nat) {
    forall i :: 0 <= i < |types| ==>
      types[i].Scalar? || if i < structs then NextStruct(types[..i], types[i]) else NextUnion(types[..i], types[i])
  }

  /** No member at any depth is a union. */
  predicate NoUnionInside(t: Type) {
    !t.Scalar? ==> forall f :: f in t.fields ==> !f.Union? && NoUnionInside(f)
  }

  /** The generator never makes a union a member of anything. */
  lemma {:induction false} GeneratedTypesNestNoUnion(types: seq<Type>, structs: nat, i: nat)
    requires Generated(types, structs) && i < |types|
    ensures NoUnionInside(types[i]) && (i < structs ==> !types[i].Union?)
    decreases i
  {
    if !types[i].Scalar? {
      forall f | f in types[i].fields ensures !f.Union? && NoUnionInside(f) {
        if !f.Scalar? {
          var k :| 0 <= k < i && types[k] == f;
          GeneratedTypesNestNoUnion(types, structs, k);
        }
      }
    }
  }

  function Root(v: Var): Var { if v.Top? then v else Root(v.of) }

  predicate NoInnerUnion(v: Var)
    decreases v
  {
    v.Member? ==> !TypeOf(v).Union? && NoInnerUnion(v.of)
  }

  lemma {:induction false} MembersAreNoUnions(v: Var)
    requires IsVar(v) && NoUnionInside(TypeOf(Root(v)))
    ensures NoInnerUnion(v) && NoUnionInside(TypeOf(v))
    decreases v
  {
    if v.Member? {
      MembersAreNoUnions(v.of);
      assert TypeOf(v) in TypeOf(v.of).fields;
    }
  }

  /** The union around a variable, if any, is then the whole declared variable. */
  lemma {:induction false} UnionIsRoot(v: Var)
    requires NoInnerUnion(v) && ContainerUnion(v).Some?
    ensures ContainerUnion(v) == Some(Root(v)) && Within(v, Root(v)) && TypeOf(Root(v)).Union?
    decreases v
  {
    if v.Member? { UnionIsRoot(v.of); }
  }

  lemma {:induction false} NestsNoUnion(v: Var)
    requires NoInnerUnion(v)
    ensures OneUnion(v)
    decreases v
  {
    if v.Member? { NestsNoUnion(v.of); }
  }

  /** Both in the same member of a union: the queries take them for overlapping. */
  ghost predicate SameMember(v: Var, w: Var) {
    exists u: Var, i: nat :: TypeOf(u).Union? && Within(v, Member(u, i)) && Within(w, Member(u, i))
  }

  lemma SameUnionMeaning(v: Var, w: Var)
    requires IsVar(v) && IsVar(w) && NoInnerUnion(v) && NoInnerUnion(w)
    ensures SameUnion(v, w) ==> Overlap(v, w) || SameMember(v, w)
    ensures SameMember(v, w) ==> SameUnion(v, w)
  {
    if SameUnion(v, w) {
      UnionIsRoot(v);
      UnionIsRoot(w);
      var u := Root(v);
      if v != u && w != u {
        InsideMember(v, u);
        InsideMember(w, u);
        var i: nat :| Within(v, Member(u, i));
        var j: nat :| Within(w, Member(u, j));
        assert i != j ==> Overlap(v, w);
      }
    }
    if SameMember(v, w) {
      var u: Var, i: nat :| TypeOf(u).Union? && Within(v, Member(u, i)) && Within(w, Member(u, i));
      assert Within(u, u);
      WithinTransitive(v, Member(u, i), u);
      WithinTransitive(w, Member(u, i), u);
      NestsNoUnion(v);
      NestsNoUnion(w);
      UnionAround(v, u);
      UnionAround(w, u);
    }
  }

  /** One recorded access, for variables in which no member is a union: every overlap is found, and
      besides only accesses to the same member of a union are. */
  lemma OverlapsFound(v: Var, x: Var)
    requires IsVar(v) && IsVar(x) && NoInnerUnion(v) && NoInnerUnion(x)
    ensures Within(v, x) || Within(x, v) || SameUnion(v, x) <==> Overlap(v, x) || SameMember(v, x)
    ensures StructWithin(v, x) || Within(x, v) || SameUnion(v, x) <==> Overlap(v, x) || SameMember(v, x)
  {
    NestsNoUnion(v);
    NestsNoUnion(x);
    SameUnionMeaning(v, x);
    if Overlap(v, x) && !Within(v, x) && !Within(x, v) { MembersShareUnion(v, x); }
    if StructWithin(v, x) { StructIsWithin(v, x); }
    if Within(v, x) && !StructWithin(v, x) {
      if ContainerUnion(v).None? { NoUnionBetween(v, x); }
      UnionIsRoot(v);
      RootWithin(v, x);
      assert TypeOf(Root(v)).Union? && Within(x, Root(x));
      UnionAround(x, Root(x));
    }
  }

  lemma {:induction false} RootWithin(v: Var, x: Var)
    requires Within(v, x)
    ensures Root(v) == Root(x) && Within(x, Root(x))
    decreases v
  {
    if v != x { RootWithin(v.of, x); } else { BelowRoot(x); }
  }

  lemma {:induction false} BelowRoot(x: Var)
    ensures Within(x, Root(x))
    decreases x
  {
    if x.Member? { BelowRoot(x.of); }
  }

  ghost predicate Touches(v: Var, xs: seq<Var>) { exists x :: x in xs && (Overlap(v, x) || SameMember(v, x)) }

  predicate OfTypes(v: Var, types: seq<Type>) { IsVar(v) && TypeOf(Root(v)) in types }

  /** On variables of generated types both queries find every overlapping access, and besides only
      accesses to the same member of a union. */
  lemma GeneratedOverlapsFound(types: seq<Type>, structs: nat, xs: seq<Var>, v: Var)
    requires Generated(types, structs) && OfTypes(v, types) && forall x :: x in xs ==> OfTypes(x, types)
    ensures IsReadPartially(xs, v) <==> Touches(v, xs)
    ensures IsWrittenPartially(xs, v) <==> Touches(v, xs)
  {
    GeneratedVar(types, structs, v);
    PartialQueriesMeaning(xs, v);
    forall x | x in xs
      ensures Within(v, x) || Within(x, v) || SameUnion(v, x) <==> Overlap(v, x) || SameMember(v, x)
      ensures StructWithin(v, x) || Within(x, v) || SameUnion(v, x) <==> Overlap(v, x) || SameMember(v, x)
    {
      GeneratedVar(types, structs, x);
      OverlapsFound(v, x);
    }
  }

  lemma GeneratedVar(types: seq<Type>, structs: nat, v: Var)
    requires Generated(types, structs) && OfTypes(v, types)
    ensures NoInnerUnion(v)
  {
    var i :| 0 <= i < |types| && types[i] == TypeOf(Root(v));
    GeneratedTypesNestNoUnion(types, structs, i);
    MembersAreNoUnions(v);
  }

  // ---------- adding effects ----------

  function AddEach(xs: seq<Var>, ys: seq<Var>, covered: (seq<Var>, Var) -> bool): seq<Var>
    decreases |ys|
  {
    if ys == [] then xs
    else AddEach(if covered(xs, ys[0]) then xs else xs + [ys[0]], ys[1..], covered)
  }

  lemma {:induction false} ReadMonotone(rs: seq<Var>, x: Var, v: Var)
    ensures IsRead(rs + [x], v) <==> IsRead(rs, v) || IsRead([x], v)
    decreases v
  {
    if v.Member? { ReadMonotone(rs, x, v.of); }
  }

  lemma {:induction false} ReadThroughCovered(rs: seq<Var>, x: Var, v: Var)
    requires IsRead(rs, x) && IsRead([x], v)
    ensures IsRead(rs, v)
    decreases v
  {
    if v != x { ReadThroughCovered(rs, x, v.of); }
  }

  lemma {:induction false} WrittenMonotone(ws: seq<Var>, x: Var, v: Var)
    ensures IsWritten(ws + [x], v) <==> IsWritten(ws, v) || IsWritten([x], v)
    decreases v
  {
    if v.Member? { WrittenMonotone(ws, x, v.of); }
  }

  lemma {:induction false} WrittenThroughCovered(ws: seq<Var>, x: Var, v: Var)
    requires IsWritten(ws, x) && IsWritten([x], v)
    ensures IsWritten(ws, v)
    decreases v
  {
    if v != x { WrittenThroughCovered(ws, x, v.of); }
  }

  lemma {:induction false} ReadSplit(ys: seq<Var>, v: Var)
    requires ys != []
    ensures IsRead(ys, v) <==> IsRead([ys[0]], v) || IsRead(ys[1..], v)
    decreases v
  {
    assert ys == [ys[0]] + ys[1..];
    if v.Member? { ReadSplit(ys, v.of); }
  }

  lemma {:induction false} WrittenSplit(ys: seq<Var>, v: Var)
    requires ys != []
    ensures IsWritten(ys, v) <==> IsWritten([ys[0]], v) || IsWritten(ys[1..], v)
    decreases v
  {
    assert ys == [ys[0]] + ys[1..];
    if v.Member? { WrittenSplit(ys, v.of); }
  }

  /** Adding an effect: a variable counts as read or written exactly if it did in one of the two. */
  lemma {:induction false} AddedReads(rs: seq<Var>, ys: seq<Var>, v: Var)
    ensures IsRead(AddEach(rs, ys, IsRead), v) <==> IsRead(rs, v) || IsRead(ys, v)
    decreases |ys|
  {
    if ys == [] {
      if v.Member? { NothingRead(v); }
      NothingRead(v);
    } else {
      var next := if IsRead(rs, ys[0]) then rs else rs + [ys[0]];
      AddedReads(next, ys[1..], v);
      ReadSplit(ys, v);
      ReadMonotone(rs, ys[0], v);
      if IsRead(rs, ys[0]) && IsRead([ys[0]], v) { ReadThroughCovered(rs, ys[0], v); }
    }
  }

  lemma {:induction false} NothingRead(v: Var)
    ensures !IsRead([], v) && !IsWritten([], v)
    decreases v
  {
    if v.Member? { NothingRead(v.of); }
  }

  lemma {:induction false} AddedWrites(ws: seq<Var>, ys: seq<Var>, v: Var)
    ensures IsWritten(AddEach(ws, ys, IsWritten), v) <==> IsWritten(ws, v) || IsWritten(ys, v)
    decreases |ys|
  {
    if ys == [] {
      NothingRead(v);
    } else {
      var next := if IsWritten(ws, ys[0]) then ws else ws + [ys[0]];
      AddedWrites(next, ys[1..], v);
      WrittenSplit(ys, v);
      WrittenMonotone(ws, ys[0], v);
      if IsWritten(ws, ys[0]) && IsWritten([ys[0]], v) { WrittenThroughCovered(ws, ys[0], v); }
    }
  }

  // ---------- consolidation ----------

  /** A read entry directly inside a union that counts as read itself. */
  predicate Offending(rs: seq<Var>, e: Var) {
    e in rs && e.Member? && TypeOf(e.of).Union? && IsRead(rs, e.of)
  }

  ghost predicate NoneOffending(rs: seq<Var>) {
    forall e :: !Offending(rs, e)
  }

  /** Whatever counts as read in `a` does so in `b`. */
  ghost predicate ReadsWithin(a: seq<Var>, b: seq<Var>) {
    forall x :: IsRead(a, x) ==> IsRead(b, x)
  }

  lemma ErasedMembers(xs: seq<Var>, i: nat, x: Var)
    requires i < |xs| && NoDup(xs)
    ensures x in Without(xs, i) <==> x in xs && x != xs[i]
    ensures NoDup(Without(xs, i))
  {
    var r := Without(xs, i);
    if x in xs && x != xs[i] {
      var k :| 0 <= k < |xs| && xs[k] == x;
      assert r[if k < i then k else k - 1] == x;
    }
    forall a, b | 0 <= a < b < |r| ensures r[a] != r[b] {
      assert r[a] == xs[if a < i then a else a + 1] && r[b] == xs[if b < i then b else b + 1];
    }
  }

  lemma {:induction false} ErasedWrite(ws: seq<Var>, i: nat, v: Var)
    requires i < |ws| && NoDup(ws) && ws[i].Member? && IsWritten(ws, ws[i].of)
    ensures IsWritten(Without(ws, i), v) <==> IsWritten(ws, v)
    decreases Depth(v)
  {
    ErasedMembers(ws, i, v);
    if v.Member? { ErasedWrite(ws, i, v.of); }
  }

  lemma {:induction false} ErasedRead(rs: seq<Var>, i: nat, v: Var)
    requires i < |rs| && NoDup(rs) && rs[i].Member? && IsRead(rs, rs[i].of)
    ensures IsRead(Without(rs, i), v) ==> IsRead(rs, v)
    ensures TypeOf(rs[i].of).Struct? ==> (IsRead(rs, v) ==> IsRead(Without(rs, i), v))
    decreases Depth(v)
  {
    ErasedMembers(rs, i, v);
    if v.Member? { ErasedRead(rs, i, v.of); }
  }

  /** A read is lost only inside an offending entry, with no further union between. */
  ghost predicate LostInside(rs0: seq<Var>, rs: seq<Var>) {
    forall x :: IsRead(rs0, x) && !IsRead(rs, x) ==> LostAt(rs0, x)
  }

  ghost predicate LostAt(rs0: seq<Var>, x: Var) { exists e :: Offending(rs0, e) && StructWithin(x, e) }

  /** Only structures contain `v`. */
  predicate StructOnly(v: Var)
    decreases v
  {
    v.Member? ==> TypeOf(v.of).Struct? && StructOnly(v.of)
  }

  ghost predicate NoneCovered(rs: seq<Var>) {
    forall r :: r in rs && r.Member? ==> !IsRead(rs, r.of)
  }

  lemma {:induction false} Outermost(rs: seq<Var>, e: Var) returns (m: Var)
    requires Offending(rs, e)
    ensures Offending(rs, m) && forall x :: Offending(rs, x) ==> Depth(x) >= Depth(m)
    decreases Depth(e)
  {
    if x :| Offending(rs, x) && Depth(x) < Depth(e) { m := Outermost(rs, x); } else { m := e; }
  }

  class Effect {
    var readVars: seq<Var>
    var writeVars: seq<Var>

    ghost predicate Valid()
      reads this
    {
      && NoDup(readVars) && NoDup(writeVars)
      && (forall v :: v in readVars ==> IsVar(v)) && (forall v :: v in writeVars ==> IsVar(v))
    }

    constructor ()
      ensures Valid() && readVars == [] && writeVars == []
    {
      readVars, writeVars := [], [];
    }

    method ReadVar(v: Var)
      requires Valid() && IsVar(v)
      modifies this
      ensures Valid() && writeVars == old(writeVars)
      ensures forall x :: IsRead(readVars, x) <==> IsRead(old(readVars), x) || IsRead([v], x)
    {
      forall x ensures IsRead(readVars + [v], x) <==> IsRead(readVars, x) || IsRead([v], x) { ReadMonotone(readVars, v, x); }
      if !IsRead(readVars, v) {
        readVars := readVars + [v];
      } else {
        forall x | IsRead([v], x) ensures IsRead(readVars, x) { ReadThroughCovered(readVars, v, x); }
      }
    }

    method WriteVar(v: Var)
      requires Valid() && IsVar(v)
      modifies this
      ensures Valid() && readVars == old(readVars)
      ensures forall x :: IsWritten(writeVars, x) <==> IsWritten(old(writeVars), x) || IsWritten([v], x)
    {
      forall x ensures IsWritten(writeVars + [v], x) <==> IsWritten(writeVars, x) || IsWritten([v], x) { WrittenMonotone(writeVars, v, x); }
      if !IsWritten(writeVars, v) {
        writeVars := writeVars + [v];
      } else {
        forall x | IsWritten([v], x) ensures IsWritten(writeVars, x) { WrittenThroughCovered(writeVars, v, x); }
      }
    }

    /** `add_effect`: every query afterwards is the disjunction of the queries on both effects. */
    method AddEffect(e: Effect)
      requires Valid() && e.Valid()
      modifies this
      ensures Valid()
      ensures forall x :: IsRead(readVars, x) <==> IsRead(old(readVars), x) || IsRead(old(e.readVars), x)
      ensures forall x :: IsWritten(writeVars, x) <==> IsWritten(old(writeVars), x) || IsWritten(old(e.writeVars), x)
    {
      if e == this { return; }
      var i := 0;
      while i < |e.readVars|
        invariant 0 <= i <= |e.readVars| && Valid() && writeVars == old(writeVars)
        invariant AddEach(old(readVars), e.readVars, IsRead) == AddEach(readVars, e.readVars[i..], IsRead)
        modifies this
      {
        assert e.readVars[i..][1..] == e.readVars[i + 1..] && e.readVars[i] in e.readVars;
        if !IsRead(readVars, e.readVars[i]) { readVars := readVars + [e.readVars[i]]; }
        i := i + 1;
      }
      i := 0;
      while i < |e.writeVars|
        invariant 0 <= i <= |e.writeVars| && Valid()
        invariant readVars == AddEach(old(readVars), e.readVars, IsRead)
        invariant AddEach(old(writeVars), e.writeVars, IsWritten) == AddEach(writeVars, e.writeVars[i..], IsWritten)
        modifies this
      {
        assert e.writeVars[i..][1..] == e.writeVars[i + 1..] && e.writeVars[i] in e.writeVars;
        if !IsWritten(writeVars, e.writeVars[i]) { writeVars := writeVars + [e.writeVars[i]]; }
        i := i + 1;
      }
      forall x ensures IsRead(readVars, x) <==> IsRead(old(readVars), x) || IsRead(e.readVars, x) { AddedReads(old(readVars), e.readVars, x); }
      forall x ensures IsWritten(writeVars, x) <==> IsWritten(old(writeVars), x) || IsWritten(e.writeVars, x) { AddedWrites(old(writeVars), e.writeVars, x); }
    }

    /** `consolidate`: no entry is covered by another, and the writes keep their meaning. The reads do
        if and only if no read entry lies directly inside a union that counts as read itself; inside
        structures they always do, and they are lost only inside such an entry. */
    method Consolidate()
      requires Valid()
      modifies this
      ensures Valid() && NoneCovered(readVars) && ReadsWithin(readVars, old(readVars))
      ensures ReadsWithin(old(readVars), readVars) <==> NoneOffending(old(readVars))
      ensures LostInside(old(readVars), readVars)
      ensures forall x :: StructOnly(x) ==> (IsRead(readVars, x) <==> IsRead(old(readVars), x))
      ensures forall e :: Offending(old(readVars), e) && StructOnly(e.of) ==> !IsRead(readVars, e)
      ensures forall x :: IsWritten(writeVars, x) <==> IsWritten(old(writeVars), x)
      ensures forall w :: w in writeVars && w.Member? ==> !IsWritten(writeVars, w.of)
    {
      ConsolidateReads();
      ConsolidateWrites();
    }

    method ConsolidateWrites()
      requires Valid()
      modifies this
      ensures Valid() && readVars == old(readVars)
      ensures forall x :: IsWritten(writeVars, x) <==> IsWritten(old(writeVars), x)
      ensures forall w :: w in writeVars && w.Member? ==> !IsWritten(writeVars, w.of)
    {
      var i := 0;
      while i < |writeVars|
        invariant 0 <= i <= |writeVars| && Valid() && readVars == old(readVars)
        invariant forall x :: IsWritten(writeVars, x) <==> IsWritten(old(writeVars), x)
        invariant forall k :: 0 <= k < i && writeVars[k].Member? ==> !IsWritten(old(writeVars), writeVars[k].of)
        decreases |writeVars| - i
        modifies this
      {
        var tmp := writeVars[i];
        if tmp.Member? && IsWritten(writeVars, tmp.of) {
          forall x ensures IsWritten(Without(writeVars, i), x) <==> IsWritten(writeVars, x) { ErasedWrite(writeVars, i, x); }
          ErasedMembers(writeVars, i, tmp);
          writeVars := Without(writeVars, i);
        } else {
          i := i + 1;
        }
      }
    }

    /** Consolidating the reads never adds one, and loses them exactly inside unions that count as read
        themselves. */
    method ConsolidateReads()
      requires Valid()
      modifies this
      ensures Valid() && writeVars == old(writeVars) && NoneCovered(readVars)
      ensures ReadsWithin(readVars, old(readVars)) && LostInside(old(readVars), readVars)
      ensures ReadsWithin(old(readVars), readVars) <==> NoneOffending(old(readVars))
      ensures forall x :: StructOnly(x) ==> (IsRead(readVars, x) <==> IsRead(old(readVars), x))
      ensures forall e :: Offending(old(readVars), e) && StructOnly(e.of) ==> !IsRead(readVars, e)
    {
      ghost var rs0 := readVars;
      var i: nat := 0;
      while i < |readVars|
        invariant i <= |readVars| && Valid() && writeVars == old(writeVars) && Erasing(rs0, readVars, i)
        decreases |readVars| - i
        modifies this
      {
        var tmp := readVars[i];
        if tmp.Member? && IsRead(readVars, tmp.of) {
          EraseRead(rs0, readVars, i);
          readVars := Without(readVars, i);
        } else {
          i := i + 1;
        }
      }
      ReadsConsolidated(rs0, readVars);
    }
  }

  /** A member of a union is read, then the union: consolidating forgets the read of the member. */
  method LoseRead() returns (e: Effect)
    ensures var u := Top(0, INNER); IsRead(e.readVars, u) && !IsRead(e.readVars, Member(u, 0))
  {
    var u := Top(0, INNER);
    e := new Effect();
    e.ReadVar(Member(u, 0));
    e.ReadVar(u);
    ghost var before := e.readVars;
    assert IsRead([Member(u, 0)], Member(u, 0)) && IsRead([u], u);
    assert IsRead(before, Member(u, 0)) && IsRead(before, u) && StructOnly(u);
    assert TypeOf(u) == INNER && Offending(before, Member(u, 0));
    e.Consolidate();
  }

  /** The first `i` entries are done. */
  ghost predicate Erasing(rs0: seq<Var>, rs: seq<Var>, i: nat) {
    && ReadsWithin(rs, rs0) && LostInside(rs0, rs) && (forall x :: x in rs ==> x in rs0)
    && forall k :: 0 <= k < i && k < |rs| && rs[k].Member? ==> !IsRead(rs, rs[k].of)
  }

  lemma EraseRead(rs0: seq<Var>, rs: seq<Var>, i: nat)
    requires i < |rs| && NoDup(rs) && rs[i].Member? && IsRead(rs, rs[i].of) && IsVar(rs[i]) && Erasing(rs0, rs, i)
    ensures NoDup(Without(rs, i)) && (forall x :: x in Without(rs, i) ==> x in rs) && Erasing(rs0, Without(rs, i), i)
  {
    var r := Without(rs, i);
    ErasedMembers(rs, i, rs[i]);
    forall x | x in r ensures x in rs { ErasedMembers(rs, i, x); }
    forall x ensures IsRead(r, x) ==> IsRead(rs, x) { ErasedRead(rs, i, x); }
    forall x | IsRead(rs0, x) && !IsRead(r, x) ensures LostAt(rs0, x) {
      if IsRead(rs, x) { NewlyLost(rs0, rs, i, x); }
    }
    assert forall k :: 0 <= k < i ==> r[k] == rs[k];
  }

  lemma NewlyLost(rs0: seq<Var>, rs: seq<Var>, i: nat, x: Var)
    requires i < |rs| && NoDup(rs) && rs[i].Member? && IsRead(rs, rs[i].of) && IsVar(rs[i]) && Erasing(rs0, rs, i)
    requires IsRead(rs, x) && !IsRead(Without(rs, i), x)
    ensures LostAt(rs0, x)
  {
    IsReadMeaning(rs, x);
    IsReadMeaning(Without(rs, i), x);
    var w :| w in rs && StructWithin(x, w);
    ErasedMembers(rs, i, w);
    ErasedRead(rs, i, x);
    assert w == rs[i] && Offending(rs0, w);
  }

  lemma ReadsConsolidated(rs0: seq<Var>, rs: seq<Var>)
    requires Erasing(rs0, rs, |rs|)
    ensures NoneCovered(rs) && (ReadsWithin(rs0, rs) <==> NoneOffending(rs0))
    ensures forall x :: StructOnly(x) ==> (IsRead(rs, x) <==> IsRead(rs0, x))
    ensures forall e :: Offending(rs0, e) && StructOnly(e.of) ==> !IsRead(rs, e)
  {
    forall x | StructOnly(x) && IsRead(rs0, x) ensures IsRead(rs, x) {
      forall e | StructWithin(x, e) ensures !Offending(rs0, e) { StructOnlyAround(x, e); }
      assert !LostAt(rs0, x);
    }
    if !NoneOffending(rs0) {
      var e :| Offending(rs0, e);
      OutermostLost(rs0, rs, e);
    }
  }

  lemma {:induction false} StructOnlyAround(x: Var, e: Var)
    requires StructOnly(x) && StructWithin(x, e)
    ensures StructOnly(e)
    decreases x
  {
    if x != e { StructOnlyAround(x.of, e); }
  }

  lemma OutermostLost(rs0: seq<Var>, rs: seq<Var>, e: Var)
    requires Erasing(rs0, rs, |rs|) && Offending(rs0, e)
    ensures !ReadsWithin(rs0, rs)
  {
    var m := Outermost(rs0, e);
    if !IsRead(rs, m.of) {
      assert LostAt(rs0, m.of);
      var e' :| Offending(rs0, e') && StructWithin(m.of, e');
      StructIsWithin(m.of, e');
      WithinDepth(m.of, e');
      assert false;
    }
    assert IsRead(rs0, m) && !IsRead(rs, m);
  }

  lemma {:induction false} StructIsWithin(x: Var, e: Var)
    requires StructWithin(x, e)
    ensures Within(x, e)
    decreases x
  {
    if x != e { StructIsWithin(x.of, e); }
  }
}
