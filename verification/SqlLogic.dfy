/** The values a row holds, and the WHERE and ORDER BY fragments the query builder
    renders, evaluated the way SQL evaluates them: comparisons with NULL are unknown,
    AND and OR are three-valued, and a row is selected only when its condition is true. */
module SqlLogic {

  datatype Option<+T> = None | Some(value: T)

  datatype Result<+T> = Ok(value: T) | Err(message: string)

  /** A column value as the database driver hands it over. Time counts nanoseconds. */
  datatype Value = Null | Int(i: int) | Float(r: real) | Bool(b: bool) | Time(t: int) | Text(s: string)

  type Row = map<string, Value>

  /** How the database orders the values of a column. Every total preorder on countably
      many values embeds into the reals, so ranking values by a real number covers binary
      and case-insensitive text collations alike; equal ranks are SQL equality. */
  type Collation = (string, Value) -> real

  /** Reading a column that the row does not have gives nil. */
  function Get(row: Row, col: string): Value {
    if col in row then row[col] else Null
  }

  datatype Truth = Yes | No | Unknown

  function And3(a: Truth, b: Truth): Truth {
    if a == No || b == No then No
    else if a == Yes && b == Yes then Yes
    else Unknown
  }

  function Or3(a: Truth, b: Truth): Truth {
    if a == Yes || b == Yes then Yes
    else if a == No && b == No then No
    else Unknown
  }

  datatype CompareOp = Less | Greater | Equal

  /** A rendered condition. Compare's argument is a placeholder number, counted from 1. */
  datatype Cond =
    | Compare(col: string, op: CompareOp, arg: nat)
    | IsNull(col: string)
    | And(left: Cond, right: Cond)
    | Or(left: Cond, right: Cond)

  function Argument(vals: seq<Value>, n: nat): Value {
    if 1 <= n <= |vals| then vals[n - 1] else Null
  }

  function CompareValues(coll: Collation, col: string, op: CompareOp, a: Value, b: Value): Truth {
    if a == Null || b == Null then Unknown
    else
      var holds := match op
        case Less => coll(col, a) < coll(col, b)
        case Greater => coll(col, a) > coll(col, b)
        case Equal => coll(col, a) == coll(col, b);
      if holds then Yes else No
  }

  function Eval(coll: Collation, c: Cond, row: Row, vals: seq<Value>): Truth {
    match c
    case Compare(col, op, n) => CompareValues(coll, col, op, Get(row, col), Argument(vals, n))
    case IsNull(col) => if Get(row, col) == Null then Yes else No
    case And(l, r) => And3(Eval(coll, l, row, vals), Eval(coll, r, row, vals))
    case Or(l, r) => Or3(Eval(coll, l, row, vals), Eval(coll, r, row, vals))
  }

  /** One ORDER BY key: "(col IS NULL) ASC", or "col ASC" / "col DESC". */
  datatype OrderKey = NullFlag(col: string) | Column(col: string, desc: bool)

  /** Where a dialect puts NULL in "col ASC" / "col DESC". */
  datatype NullPlacement = NullsFirst | NullsLast

  /** -1, 0 or 1: how the key orders two rows. Two NULLs are peers. */
  function CompareKey(coll: Collation, nulls: NullPlacement, k: OrderKey, a: Row, b: Row): int {
    var x, y := Get(a, k.col), Get(b, k.col);
    match k
    case NullFlag(_) =>
      if (x == Null) == (y == Null) then 0 else if y == Null then -1 else 1
    case Column(col, desc) =>
      if x == Null && y == Null then 0
      else if x == Null then (if nulls == NullsFirst then -1 else 1)
      else if y == Null then (if nulls == NullsFirst then 1 else -1)
      else if coll(col, x) == coll(col, y) then 0
      else if (coll(col, x) < coll(col, y)) != desc then -1
      else 1
  }

  /** ORDER BY puts a strictly before b. */
  predicate OrderedBefore(coll: Collation, nulls: NullPlacement, keys: seq<OrderKey>, a: Row, b: Row) {
    keys != [] &&
    var c := CompareKey(coll, nulls, keys[0], a, b);
    c < 0 || (c == 0 && OrderedBefore(coll, nulls, keys[1..], a, b))
  }
}
