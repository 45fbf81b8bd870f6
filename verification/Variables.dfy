/** Program variables as the analyses see them. */
module Variables {
  /** A variable of the generated program. `level` is the number of pointer levels of its type.
      An array is analysed through one collective variable; `Item` is one element of it.
      `Union` and its members `Field` are used by the union-write analysis only. */
  datatype Variable =
    | NullPtr
    | GarbagePtr
    | Plain(id: nat, level: nat)
    | Array(id: nat, level: nat, size: nat)
    | Item(id: nat, level: nat, size: nat, idx: nat)
    | Union(union: nat)
    | Field(union: nat, fid: nat)
  {
    /** The two dummy variables that stand for the null pointer and for dead storage. */
    predicate IsSpecial() { NullPtr? || GarbagePtr? }

    predicate IsArray() { Array? || Item? }

    function Level(): nat {
      match this
      case Plain(_, l) => l
      case Array(_, l, _) => l
      case Item(_, l, _, _) => l
      case _ => 0
    }

    predicate IsPointer() { Level() > 0 }

    /** Elements of an array share the facts and effects of the whole array. */
    function Coll(): Variable {
      if Item? then Array(id, level, size) else this
    }

    /** The same variable, or parts of the same union. */
    predicate LooseMatch(v: Variable) {
      Coll() == v.Coll() || ((Union? || Field?) && (v.Union? || v.Field?) && union == v.union)
    }

    /** A storage location: an ordinary variable or one array element. */
    predicate IsCell() { Plain? || (Item? && idx < size) }

    /** The storage locations of a declared variable. */
    function Cells(): (cells: set<Variable>)
      ensures forall c :: c in cells <==> c.IsCell() && c.Coll() == this
    {
      match this
      case Plain(_, _) => {this}
      case Array(i, l, n) => set k | 0 <= k < n :: Item(i, l, n, k)
      case _ => {}
    }
  }

  function CellsOf(vs: seq<Variable>): (cells: set<Variable>)
    ensures forall c :: c in cells <==> c.IsCell() && c.Coll() in vs
  {
    if vs == [] then {} else vs[0].Cells() + CellsOf(vs[1..])
  }
}
