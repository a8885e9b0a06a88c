/** Search conditions: the tree, the values its binder supplies, and what it means on a row. */
module Conditions {
  import opened Core

  datatype Condition =
    | Leaf(col: string, op: CmpOp, value: Value)
    | And(left: Condition, right: Condition)
    | Or(left: Condition, right: Condition)
    | All

  /** The leaf values in the order the binder visits them. */
  function Leaves(c: Condition): seq<Value> {
    match c
    case Leaf(_, _, v) => [v]
    case And(l, r) => Leaves(l) + Leaves(r)
    case Or(l, r) => Leaves(l) + Leaves(r)
    case All => []
  }

  /** No match-all node anywhere in the tree. */
  predicate AllFree(c: Condition) {
    match c
    case Leaf(_, _, _) => true
    case And(l, r) => AllFree(l) && AllFree(r)
    case Or(l, r) => AllFree(l) && AllFree(r)
    case All => false
  }

  /** NULL and match-all conditions both mean that there is no WHERE clause. */
  predicate NeedsWhere(cond: Option<Condition>) {
    cond.Some? && !cond.value.All?
  }

  /** The match-all sentinel stands alone or not at all. */
  predicate NoNestedAll(cond: Option<Condition>) {
    NeedsWhere(cond) ==> AllFree(cond.value)
  }

  function WhereLeaves(cond: Option<Condition>): seq<Value> {
    if NeedsWhere(cond) then Leaves(cond.value) else []
  }

  /** Whether every leaf names one of the columns `names`. */
  predicate ColumnsIn(c: Condition, names: seq<string>) {
    match c
    case Leaf(col, _, _) => col in names
    case And(l, r) => ColumnsIn(l, names) && ColumnsIn(r, names)
    case Or(l, r) => ColumnsIn(l, names) && ColumnsIn(r, names)
    case All => true
  }

  // ---- Meaning ---------------------------------------------------------------------------

  /** How the backend compares two values that are not NULL. */
  type Comparator = (Value, CmpOp, Value) -> bool

  function IndexOf(names: seq<string>, name: string): (i: nat)
    requires name in names
    ensures i < |names| && names[i] == name
  {
    if names[0] == name then 0 else 1 + IndexOf(names[1..], name)
  }

  /**
   * The plain two-valued reading of a condition on a row: a comparison with NULL is false,
   * AND and OR are the Boolean ones, match-all is true.
   */
  predicate Matches(cmp: Comparator, names: seq<string>, row: Row, c: Condition)
    requires |row| == |names| && ColumnsIn(c, names)
  {
    match c
    case Leaf(col, op, v) =>
      var x := row[IndexOf(names, col)];
      x != NullValue && v != NullValue && cmp(x, op, v)
    case And(l, r) => Matches(cmp, names, row, l) && Matches(cmp, names, row, r)
    case Or(l, r) => Matches(cmp, names, row, l) || Matches(cmp, names, row, r)
    case All => true
  }

  predicate Selected(cmp: Comparator, names: seq<string>, row: Row, cond: Option<Condition>)
    requires |row| == |names| && (NeedsWhere(cond) ==> ColumnsIn(cond.value, names))
  {
    NeedsWhere(cond) ==> Matches(cmp, names, row, cond.value)
  }
}
