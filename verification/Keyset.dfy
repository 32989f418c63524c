/** Keyset pagination positions (internal/query/cursor.go): the ORDER BY list, the
    "strictly after the cursor" condition, and the signed cursor that carries a position
    from one page to the next. */
module Keyset {
  import opened SqlLogic

  datatype Field = Field(name: string, column: string, nullable: bool, primaryKey: bool)

  datatype Entity = Entity(fields: seq<Field>) {
    /** The first field that satisfies the lookup, as the source's loops find it. */
    function FindField(key: string, from: nat := 0): Option<Field>
      decreases |fields| - from
    {
      if from >= |fields| then None
      else if fields[from].column == key || fields[from].name == key then Some(fields[from])
      else FindField(key, from + 1)
    }

    function PrimaryColumn(from: nat := 0): string
      decreases |fields| - from
    {
      if from >= |fields| then "id"
      else if fields[from].primaryKey then fields[from].column
      else PrimaryColumn(from + 1)
    }

    predicate SortNullable(col: string) {
      var f := FindField(col);
      f.Some? && f.value.nullable && !f.value.primaryKey
    }

    /** What the table's NOT NULL constraints promise about a stored row. */
    predicate Stored(row: Row, col: string) {
      Get(row, PrimaryColumn()) != Null && (SortNullable(col) || Get(row, col) != Null)
    }
  }

  /** The field that a key names: the first whose column or name it is. */
  predicate Names(e: Entity, key: string, i: nat)
    requires i < |e.fields|
  {
    && (e.fields[i].column == key || e.fields[i].name == key)
    && forall j :: 0 <= j < i ==> e.fields[j].column != key && e.fields[j].name != key
  }

  lemma {:induction false} FindFieldIsFirst(e: Entity, key: string, from: nat)
    requires from <= |e.fields| && forall j :: 0 <= j < from ==> e.fields[j].column != key && e.fields[j].name != key
    ensures e.FindField(key, from).None? ==> forall j :: 0 <= j < |e.fields| ==>
        e.fields[j].column != key && e.fields[j].name != key
    ensures e.FindField(key, from).Some? ==>
      exists i :: 0 <= i < |e.fields| && Names(e, key, i) && e.FindField(key, from).value == e.fields[i]
    decreases |e.fields| - from
  {
    if from < |e.fields| {
      if e.fields[from].column == key || e.fields[from].name == key {
        assert Names(e, key, from);
      } else {
        FindFieldIsFirst(e, key, from + 1);
      }
    }
  }

  /** A sort column counts as nullable exactly when its field is declared so and is not a primary key. */
  lemma SortNullableExactly(e: Entity, col: string)
    ensures e.SortNullable(col) <==>
      exists i :: 0 <= i < |e.fields| && Names(e, col, i) && e.fields[i].nullable && !e.fields[i].primaryKey
  {
    hide Entity.FindField;
    FindFieldIsFirst(e, col, 0);
  }

  datatype Sort = Sort(column: string, desc: bool)

  datatype Cursor = Cursor(sort: string, desc: bool, value: Value, id: Value)

  function ResolveSort(e: Entity, s: Sort): Result<Sort> {
    if s.column == "" then Ok(Sort(e.PrimaryColumn(), s.desc))
    else match e.FindField(s.column)
      case Some(f) => Ok(Sort(f.column, s.desc))
      case None => Err("sort column is not a known entity field")
  }

  function OrderBy(e: Entity, s: Sort): seq<OrderKey> {
    var pk := e.PrimaryColumn();
    if s.column == pk then [Column(pk, s.desc)]
    else
      var order := [Column(s.column, s.desc), Column(pk, s.desc)];
      if e.SortNullable(s.column) then [NullFlag(s.column)] + order else order
  }

  // ---- the order both fragments must describe ----

  /** A place in the listing: a row's sort value and primary key. */
  datatype Position = Position(value: Value, id: Value)

  function PositionOf(e: Entity, s: Sort, row: Row): Position {
    Position(if s.column == e.PrimaryColumn() then Null else Get(row, s.column), Get(row, e.PrimaryColumn()))
  }

  predicate Directed(desc: bool, a: real, b: real) {
    if desc then a > b else a < b
  }

  /** Sort value in the requested direction with NULLs last in both directions, ties
      broken by the primary key in the same direction. */
  predicate Before(coll: Collation, e: Entity, s: Sort, p: Position, q: Position) {
    var pk := e.PrimaryColumn();
    var byId := Directed(s.desc, coll(pk, p.id), coll(pk, q.id));
    if s.column == pk then byId
    else if p.value == Null then q.value == Null && byId
    else if q.value == Null then true
    else
      var x, y := coll(s.column, p.value), coll(s.column, q.value);
      Directed(s.desc, x, y) || (x == y && byId)
  }

  /** Two places the database does not tell apart: the same ranks, and NULL only for NULL. */
  predicate SamePlace(coll: Collation, e: Entity, s: Sort, p: Position, q: Position) {
    && coll(e.PrimaryColumn(), p.id) == coll(e.PrimaryColumn(), q.id)
    && (s.column != e.PrimaryColumn() ==>
        (p.value == Null <==> q.value == Null) && coll(s.column, p.value) == coll(s.column, q.value))
  }

  /** ORDER BY sorts stored rows by Before, wherever the dialect would put NULLs. */
  lemma OrderByIsBefore(coll: Collation, nulls: NullPlacement, e: Entity, s: Sort, a: Row, b: Row)
    requires e.Stored(a, s.column) && e.Stored(b, s.column)
    ensures OrderedBefore(coll, nulls, OrderBy(e, s), a, b)
       <==> Before(coll, e, s, PositionOf(e, s, a), PositionOf(e, s, b))
  {
    var pk := e.PrimaryColumn();
    var last := [Column(pk, s.desc)];
    assert last[1..] == [];
    assert OrderedBefore(coll, nulls, last, a, b) <==> CompareKey(coll, nulls, last[0], a, b) < 0;
    if s.column != pk {
      var order := [Column(s.column, s.desc), Column(pk, s.desc)];
      assert order[1..] == last;
      if e.SortNullable(s.column) {
        assert OrderBy(e, s)[1..] == order;
      }
    }
  }

  // ---- the keyset condition ----

  /** The condition and the arguments it appends, its placeholders numbered after the
      base arguments already handed out. */
  function KeysetCond(e: Entity, s: Sort, c: Cursor, base: nat): Cond {
    var pk := e.PrimaryColumn();
    var op := if s.desc then Less else Greater;
    if s.column == pk then Compare(pk, op, base + 1)
    else if c.value == Null then And(IsNull(s.column), Compare(pk, op, base + 1))
    else
      var clause := Or(Compare(s.column, op, base + 1),
                       And(Compare(s.column, Equal, base + 2), Compare(pk, op, base + 3)));
      if e.SortNullable(s.column) then Or(clause, IsNull(s.column)) else clause
  }

  function KeysetArgs(e: Entity, s: Sort, c: Cursor): seq<Value> {
    if s.column == e.PrimaryColumn() || c.value == Null then [c.id] else [c.value, c.value, c.id]
  }

  /** Under three-valued logic the condition selects exactly the stored rows strictly
      after the cursor's position. */
  lemma KeysetIsAfter(coll: Collation, e: Entity, s: Sort, c: Cursor, row: Row, prior: seq<Value>)
    requires e.Stored(row, s.column) && c.id != Null
    ensures var after := Before(coll, e, s, Position(c.value, c.id), PositionOf(e, s, row));
            Eval(coll, KeysetCond(e, s, c, |prior|), row, prior + KeysetArgs(e, s, c)) == Yes <==> after
  {
    var vals := prior + KeysetArgs(e, s, c);
    assert Argument(vals, |prior| + 1) == KeysetArgs(e, s, c)[0];
    if s.column != e.PrimaryColumn() && c.value != Null {
      assert Argument(vals, |prior| + 2) == c.value && Argument(vals, |prior| + 3) == c.id;
      var op := if s.desc then Less else Greater;
      var tie := And(Compare(s.column, Equal, |prior| + 2), Compare(e.PrimaryColumn(), op, |prior| + 3));
      assert Eval(coll, tie, row, vals)
          == And3(CompareValues(coll, s.column, Equal, Get(row, s.column), c.value),
                  CompareValues(coll, e.PrimaryColumn(), op, Get(row, e.PrimaryColumn()), c.id));
      assert Eval(coll, Or(Compare(s.column, op, |prior| + 1), tie), row, vals)
          == Or3(CompareValues(coll, s.column, op, Get(row, s.column), c.value), Eval(coll, tie, row, vals));
    }
  }

  /** Without the NOT NULL promise: a row after the cursor is selected if and only if the sort
      is by primary key, the column is nullable, the row's value is not NULL, or the cursor's
      value is NULL. */
  lemma UndeclaredNullIsLost(coll: Collation, e: Entity, s: Sort, c: Cursor, row: Row, prior: seq<Value>)
    requires c.id != Null && Get(row, e.PrimaryColumn()) != Null
    requires Before(coll, e, s, Position(c.value, c.id), PositionOf(e, s, row))
    ensures Eval(coll, KeysetCond(e, s, c, |prior|), row, prior + KeysetArgs(e, s, c)) == Yes <==>
      s.column == e.PrimaryColumn() || e.SortNullable(s.column) || Get(row, s.column) != Null || c.value == Null
  {
    if e.Stored(row, s.column) || s.column == e.PrimaryColumn() {
      KeysetIsAfter(coll, e, s, c, row, prior);
    } else {
      var vals, op := prior + KeysetArgs(e, s, c), if s.desc then Less else Greater;
      if c.value == Null {
        assert Argument(vals, |prior| + 1) == c.id;
      } else {
        assert Eval(coll, Compare(s.column, op, |prior| + 1), row, vals) == Unknown;
        assert Eval(coll, Compare(s.column, Equal, |prior| + 2), row, vals) == Unknown;
      }
    }
  }

  /** Before is a strict order, total on rows the primary key tells apart. */
  lemma BeforeIsStrictOrder(coll: Collation, e: Entity, s: Sort, p: Position, q: Position, r: Position)
    ensures !Before(coll, e, s, p, p)
    ensures Before(coll, e, s, p, q) && Before(coll, e, s, q, r) ==> Before(coll, e, s, p, r)
    ensures coll(e.PrimaryColumn(), p.id) != coll(e.PrimaryColumn(), q.id)
        ==> Before(coll, e, s, p, q) || Before(coll, e, s, q, p)
  {
  }

  /** The argument accumulator shared by the clauses of one query. */
  class Args {
    var vals: seq<Value>

    constructor ()
      ensures vals == []
    {
      vals := [];
    }

    method Add(v: Value) returns (n: nat)
      modifies this
      ensures vals == old(vals) + [v]
      ensures n == |vals|
    {
      vals := vals + [v];
      n := |vals|;
    }
  }

  /** keysetClause: refuses a cursor issued for another sort, otherwise appends its
      arguments and returns the condition over them. */
  method KeysetClause(a: Args, e: Entity, s: Sort, c: Cursor) returns (r: Result<Cond>)
    modifies a
    ensures r.Ok? <==> c.sort == s.column && c.desc == s.desc
    ensures r.Err? ==> a.vals == old(a.vals)
    ensures r.Ok? ==> r.value == KeysetCond(e, s, c, |old(a.vals)|) && a.vals == old(a.vals) + KeysetArgs(e, s, c)
  {
    if c.sort != s.column || c.desc != s.desc {
      return Err("cursor does not match the requested sort");
    }
    var op := if s.desc then Less else Greater;
    var pk := e.PrimaryColumn();
    if s.column == pk {
      var id := a.Add(c.id);
      return Ok(Compare(pk, op, id));
    }
    if c.value == Null {
      var id := a.Add(c.id);
      return Ok(And(IsNull(s.column), Compare(pk, op, id)));
    }
    var v1 := a.Add(c.value);
    var v2 := a.Add(c.value);
    var id := a.Add(c.id);
    var clause := Or(Compare(s.column, op, v1), And(Compare(s.column, Equal, v2), Compare(pk, op, id)));
    if e.SortNullable(s.column) {
      clause := Or(clause, IsNull(s.column));
    }
    return Ok(clause);
  }
}
