/** What a database makes of a statement: a reader for the SQL that internal/query writes, with
    the values of its arguments in place, and the meaning of what it reads in three-valued logic. */
module SqlReader {
  import opened SqlLogic
  import opened Placeholders
  import LikeMatch

  // ---- conditions ----

  datatype Relation = Below | AtMost | Above | AtLeast | Same | Different

  datatype Expr =
    | Relates(col: string, rel: Relation, v: Value)
    | NullTest(col: string, isNull: bool)
    | Member(col: string, positive: bool, vs: seq<Value>)
    | Matches(col: string, pattern: Value)
    | Constant(truth: bool)
    | Both(l: Expr, r: Expr)
    | Either(l: Expr, r: Expr)

  /** lower is LOWER(col) of a value that is not NULL. */
  datatype Database = Database(coll: Collation, nulls: NullPlacement, lower: Value -> string)

  function Not3(t: Truth): Truth { match t case Yes => No case No => Yes case Unknown => Unknown }

  /** AND and OR are each other's mirror image under NOT, and AND fails as soon as one side does. */
  lemma DeMorgan(a: Truth, b: Truth)
    ensures Or3(a, b) == Not3(And3(Not3(a), Not3(b)))
    ensures And3(a, b) == No <==> a == No || b == No
    ensures And3(a, b) == Yes <==> a == Yes && b == Yes
  {
  }

  function Known(b: bool): Truth { if b then Yes else No }

  function Related(coll: Collation, col: string, a: Value, rel: Relation, b: Value): Truth {
    if a == Null || b == Null then Unknown
    else
      var x, y := coll(col, a), coll(col, b);
      Known(match rel
        case Below => x < y
        case AtMost => x <= y
        case Above => x > y
        case AtLeast => x >= y
        case Same => x == y
        case Different => x != y)
  }

  /** a IN (vs) */
  function Among(coll: Collation, col: string, a: Value, vs: seq<Value>): Truth {
    if vs == [] then No else Or3(Related(coll, col, a, Same, vs[0]), Among(coll, col, a, vs[1..]))
  }

  function Evaluate(db: Database, e: Expr, row: Row): Truth {
    match e
    case Relates(col, rel, v) => Related(db.coll, col, Get(row, col), rel, v)
    case NullTest(col, isNull) => Known((Get(row, col) == Null) == isNull)
    case Member(col, positive, vs) =>
      var among := Among(db.coll, col, Get(row, col), vs);
      if positive then among else Not3(among)
    case Matches(col, pattern) =>
      if Get(row, col) == Null || !pattern.Text? then Unknown
      else Known(LikeMatch.Like(pattern.s, db.lower(Get(row, col))))
    case Constant(truth) => Known(truth)
    case Both(l, r) => And3(Evaluate(db, l, row), Evaluate(db, r, row))
    case Either(l, r) => Or3(Evaluate(db, l, row), Evaluate(db, r, row))
  }

  // ---- reading ----

  datatype Read<+T> = Fail | Got(value: T, rest: seq<Bound>)

  /** The text goes on with the word. */
  predicate Says(m: seq<Bound>, word: string) {
    |word| <= |m| && forall i :: 0 <= i < |word| ==> m[i] == Char(word[i])
  }

  /** A name after its opening quote, up to a quote that is not doubled. */
  function NameFrom(m: seq<Bound>, q: char): (r: Read<string>)
    ensures r.Got? ==> |r.rest| < |m|
  {
    if m == [] || !m[0].Char? then Fail
    else if m[0].c == q then
      if |m| > 1 && m[1] == Char(q) then
        var r := NameFrom(m[2..], q);
        if r.Got? then Got([q] + r.value, r.rest) else Fail
      else Got("", m[1..])
    else
      var r := NameFrom(m[1..], q);
      if r.Got? then Got([m[0].c] + r.value, r.rest) else Fail
  }

  function ReadName(m: seq<Bound>, q: char): (r: Read<string>)
    ensures r.Got? ==> |r.rest| < |m|
  {
    if m != [] && m[0] == Char(q) then NameFrom(m[1..], q) else Fail
  }

  function ReadRelation(m: seq<Bound>): (r: Read<Relation>)
    ensures r.Got? ==> |r.rest| < |m|
  {
    if Says(m, " = ") then Got(Same, m[3..])
    else if Says(m, " <> ") then Got(Different, m[4..])
    else if Says(m, " < ") then Got(Below, m[3..])
    else if Says(m, " <= ") then Got(AtMost, m[4..])
    else if Says(m, " > ") then Got(Above, m[3..])
    else if Says(m, " >= ") then Got(AtLeast, m[4..])
    else Fail
  }

  /** "v, v, …)" */
  function ReadValues(m: seq<Bound>): (r: Read<seq<Value>>)
    ensures r.Got? ==> |r.rest| < |m|
  {
    if m == [] || !m[0].Arg? then Fail
    else if Says(m[1..], ")") then Got([m[0].v], m[2..])
    else if Says(m[1..], ", ") then
      var r := ReadValues(m[3..]);
      if r.Got? then Got([m[0].v] + r.value, r.rest) else Fail
    else Fail
  }

  function ReadMembers(col: string, positive: bool, m: seq<Bound>): (r: Read<Expr>)
    ensures r.Got? ==> |r.rest| < |m|
  {
    var vs := ReadValues(m);
    if vs.Got? then Got(Member(col, positive, vs.value), vs.rest) else Fail
  }

  /** What follows a column name. */
  function ReadTail(col: string, m: seq<Bound>): (r: Read<Expr>)
    ensures r.Got? ==> |r.rest| < |m|
  {
    if Says(m, " IS NULL") then Got(NullTest(col, true), m[8..])
    else if Says(m, " IS NOT NULL") then Got(NullTest(col, false), m[12..])
    else if Says(m, " IN (") then ReadMembers(col, true, m[5..])
    else if Says(m, " NOT IN (") then ReadMembers(col, false, m[9..])
    else
      var rel := ReadRelation(m);
      if rel.Got? && rel.rest != [] && rel.rest[0].Arg? then Got(Relates(col, rel.value, rel.rest[0].v), rel.rest[1..])
      else Fail
  }

  /** "col) LIKE v ESCAPE '!'" */
  function ReadLike(m: seq<Bound>, q: char): (r: Read<Expr>)
    ensures r.Got? ==> |r.rest| < |m|
  {
    var col := ReadName(m, q);
    if col.Got? && Says(col.rest, ") LIKE ") then
      var m1 := col.rest[7..];
      if m1 != [] && m1[0].Arg? && Says(m1[1..], " ESCAPE '!'") then Got(Matches(col.value, m1[0].v), m1[12..])
      else Fail
    else Fail
  }

  function ReadTerm(m: seq<Bound>, q: char): (r: Read<Expr>)
    ensures r.Got? ==> |r.rest| < |m|
    decreases |m|, 0
  {
    if Says(m, "(") then
      var e := ReadOr(m[1..], q);
      if e.Got? && Says(e.rest, ")") then Got(e.value, e.rest[1..]) else Fail
    else if Says(m, "LOWER(") then ReadLike(m[6..], q)
    else if Says(m, "1 = 0") then Got(Constant(false), m[5..])
    else if Says(m, "1 = 1") then Got(Constant(true), m[5..])
    else
      var col := ReadName(m, q);
      if col.Got? then ReadTail(col.value, col.rest) else Fail
  }

  function ReadAnd(m: seq<Bound>, q: char): (r: Read<Expr>)
    ensures r.Got? ==> |r.rest| < |m|
    decreases |m|, 1
  {
    var l := ReadTerm(m, q);
    if l.Got? && Says(l.rest, " AND ") then
      var r := ReadAnd(l.rest[5..], q);
      if r.Got? then Got(Both(l.value, r.value), r.rest) else Fail
    else l
  }

  function ReadOr(m: seq<Bound>, q: char): (r: Read<Expr>)
    ensures r.Got? ==> |r.rest| < |m|
    decreases |m|, 2
  {
    var l := ReadAnd(m, q);
    if l.Got? && Says(l.rest, " OR ") then
      var r := ReadOr(l.rest[4..], q);
      if r.Got? then Got(Either(l.value, r.value), r.rest) else Fail
    else l
  }

  // ---- whole statements ----

  /** "name, name, …" */
  function ReadNames(m: seq<Bound>, q: char): (r: Read<seq<string>>)
    ensures r.Got? ==> |r.rest| < |m|
    decreases |m|
  {
    var name := ReadName(m, q);
    if name.Fail? then Fail
    else if Says(name.rest, ", ") then
      var r := ReadNames(name.rest[2..], q);
      if r.Got? then Got([name.value] + r.value, r.rest) else Fail
    else Got([name.value], name.rest)
  }

  function ReadOrderKey(m: seq<Bound>, q: char): (r: Read<OrderKey>)
    ensures r.Got? ==> |r.rest| < |m|
  {
    if Says(m, "(") then
      var col := ReadName(m[1..], q);
      if col.Got? && Says(col.rest, " IS NULL) ASC") then Got(NullFlag(col.value), col.rest[13..]) else Fail
    else
      var col := ReadName(m, q);
      if col.Got? && Says(col.rest, " ASC") then Got(Column(col.value, false), col.rest[4..])
      else if col.Got? && Says(col.rest, " DESC") then Got(Column(col.value, true), col.rest[5..])
      else Fail
  }

  function ReadOrder(m: seq<Bound>, q: char): (r: Read<seq<OrderKey>>)
    ensures r.Got? ==> |r.rest| < |m|
    decreases |m|
  {
    var k := ReadOrderKey(m, q);
    if k.Fail? then Fail
    else if Says(k.rest, ", ") then
      var r := ReadOrder(k.rest[2..], q);
      if r.Got? then Got([k.value] + r.value, r.rest) else Fail
    else Got([k.value], k.rest)
  }

  /** A word and one value after it, if the text goes on with the word. */
  function ReadOption(m: seq<Bound>, word: string): Read<Option<Value>> {
    if Says(m, word) then
      var m1 := m[|word|..];
      if m1 != [] && m1[0].Arg? then Got(Some(m1[0].v), m1[1..]) else Fail
    else Got(None, m)
  }

  function ReadWhere(m: seq<Bound>, q: char): Read<Option<Expr>> {
    if Says(m, " WHERE ") then
      var e := ReadAnd(m[7..], q);
      if e.Got? then Got(Some(e.value), e.rest) else Fail
    else Got(None, m)
  }

  datatype Select = Select(
    columns: seq<string>,
    table: string,
    where: Option<Expr>,
    order: seq<OrderKey>,
    limit: Option<Value>,
    offset: Option<Value>)

  function ReadSelect(m: seq<Bound>, q: char): Option<Select> {
    if !Says(m, "SELECT ") then None
    else
      var columns := ReadNames(m[7..], q);
      if columns.Fail? || !Says(columns.rest, " FROM ") then None
      else
        var table := ReadName(columns.rest[6..], q);
        if table.Fail? then None else ReadConditions(columns.value, table.value, table.rest, q)
  }

  /** WHERE, ORDER BY, LIMIT and OFFSET, each as far as it is there, up to the end. */
  function ReadConditions(columns: seq<string>, table: string, m: seq<Bound>, q: char): Option<Select> {
    var where := ReadWhere(m, q);
    if where.Fail? then None
    else
      var order := if Says(where.rest, " ORDER BY ") then ReadOrder(where.rest[10..], q) else Got([], where.rest);
      if order.Fail? then None
      else
        var limit := ReadOption(order.rest, " LIMIT ");
        if limit.Fail? then None
        else
          var offset := ReadOption(limit.rest, " OFFSET ");
          if offset.Fail? || offset.rest != [] then None
          else Some(Select(columns, table, where.value, order.value, limit.value, offset.value))
  }

  // ---- running a SELECT ----

  predicate Passes(db: Database, s: Select, row: Row) {
    s.where.Some? ==> Evaluate(db, s.where.value, row) == Yes
  }

  function Passing(db: Database, s: Select, rows: seq<Row>): seq<Row> {
    if rows == [] then []
    else (if Passes(db, s, rows[0]) then [rows[0]] else []) + Passing(db, s, rows[1..])
  }

  /** A row goes before the first one it precedes. */
  function Placed(db: Database, s: Select, row: Row, sorted: seq<Row>): seq<Row> {
    if sorted == [] then [row]
    else if OrderedBefore(db.coll, db.nulls, s.order, row, sorted[0]) then [row] + sorted
    else [sorted[0]] + Placed(db, s, row, sorted[1..])
  }

  function Sorted(db: Database, s: Select, rows: seq<Row>): seq<Row> {
    if rows == [] then [] else Placed(db, s, rows[0], Sorted(db, s, rows[1..]))
  }

  function Count(v: Option<Value>, otherwise: nat): nat {
    if v.Some? && v.value.Int? && v.value.i >= 0 then v.value.i else otherwise
  }

  /** The rows the database answers with. */
  function Answer(db: Database, s: Select, rows: seq<Row>): seq<Row> {
    var sorted := Sorted(db, s, Passing(db, s, rows));
    var skipped := Count(s.offset, 0);
    var from := if skipped <= |sorted| then sorted[skipped..] else [];
    var most := Count(s.limit, |from|);
    if most <= |from| then from[..most] else from
  }
}
