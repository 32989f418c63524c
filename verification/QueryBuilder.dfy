/** The statements internal/query/builder.go assembles. Whatever the dialect, the text and
    argument list handed to the driver read as the statement with its values written in. */
module QueryBuilder {
  import opened SqlLogic
  import opened Strings
  import opened Numerals
  import opened Placeholders
  import opened Rendering
  import opened QueryText
  import Keyset
  import SqliteTime

  /** What differs between databases: ? placeholders, RETURNING, row locks. */
  datatype Dialect = Dialect(question: bool, returning: bool, locks: bool)

  datatype Prepared = Prepared(sql: string, args: seq<Value>)

  /** The database reads m: it sees as many placeholders as arguments and puts each argument
      where m has it. */
  predicate Reads(d: Dialect, p: Prepared, m: seq<Bound>) {
    if d.question then QuestionMeaning(p.sql, p.args) == m && QuestionMarks(p.sql) == |p.args|
    else Params(p.sql) == Range(0, |p.args|) && Meaning(p.sql, p.args) == m
  }

  /** The database executes m, exactly unless it takes ? for a placeholder and m has a literal
      one. */
  predicate Executes(d: Dialect, p: Prepared, m: seq<Bound>) {
    Reads(d, p, m) <==> (d.question ==> Char('?') !in m)
  }

  /** dialect.Rebind on a finished statement. */
  method Prepare(d: Dialect, sql: string, vals: seq<Value>, ghost m: seq<Bound>) returns (p: Prepared)
    requires Rendered(sql, 0, |vals|, vals, m)
    ensures Executes(d, p, m) && p.args == vals
  {
    hide Meaning, Params, QuestionMarks, QuestionMeaning, Rebind;
    if d.question {
      var q := RebindQuestion(sql);
      RebindNeedsTextualOrder(sql, |vals|);
      MeaningQuestions(sql, vals);
      QuestionsAreRead(q, vals);
      p := Prepared(q, vals);
    } else {
      p := Prepared(sql, vals);
    }
  }

  // ---- times ----

  function BoundAll(sqlite: bool, show: int -> string, vals: seq<Value>): (r: seq<Value>)
    ensures |r| == |vals| && forall i :: 0 <= i < |vals| ==> r[i] == SqliteTime.BindValue(sqlite, show, vals[i])
  {
    seq(|vals|, i requires 0 <= i < |vals| => SqliteTime.BindValue(sqlite, show, vals[i]))
  }

  /** The same text with every time in it written out. */
  function BoundMeaning(sqlite: bool, show: int -> string, m: seq<Bound>): seq<Bound> {
    if m == [] then []
    else [if m[0].Arg? then Arg(SqliteTime.BindValue(sqlite, show, m[0].v))
        else m[0]] + BoundMeaning(sqlite, show, m[1..])
  }

  lemma {:induction false} NumberedTimes(sqlite: bool, show: int -> string, pieces: seq<Piece>, vals: seq<Value>)
    ensures BindNumbered(pieces, BoundAll(sqlite, show, vals)) == BoundMeaning(sqlite, show, BindNumbered(pieces, vals))
  {
    if pieces != [] {
      NumberedTimes(sqlite, show, pieces[1..], vals);
      assert BindNumbered(pieces, vals)[1..] == BindNumbered(pieces[1..], vals);
    }
  }

  lemma {:induction false} QuestionTimes(sqlite: bool, show: int -> string, s: string, vals: seq<Value>)
    ensures QuestionMeaning(s, BoundAll(sqlite, show, vals)) == BoundMeaning(sqlite, show, QuestionMeaning(s, vals))
  {
    if s != [] {
      var rest := if s[0] == '?' && vals != [] then vals[1..] else vals;
      QuestionTimes(sqlite, show, s[1..], rest);
      assert QuestionMeaning(s, vals)[1..] == QuestionMeaning(s[1..], rest);
      if s[0] == '?' && vals != [] {
        assert BoundAll(sqlite, show, vals)[1..] == BoundAll(sqlite, show, rest);
      }
    }
  }

  /** A statement whose arguments were bound for SQLite reads as it did, with every time replaced
      by its text where the statement has it. */
  lemma BoundStatementReads(d: Dialect, sqlite: bool, show: int -> string, p: Prepared, m: seq<Bound>)
    requires Reads(d, p, m)
    ensures Reads(d, Prepared(p.sql, BoundAll(sqlite, show, p.args)), BoundMeaning(sqlite, show, m))
  {
    hide Scan, BindNumbered, QuestionMeaning, BoundMeaning, QuestionMarks;
    NumberedTimes(sqlite, show, Scan(p.sql), p.args);
    QuestionTimes(sqlite, show, p.sql, p.args);
  }

  // ---- parts of statements ----

  function ColumnNames(t: Table, fs: seq<Keyset.Field>): seq<string> {
    if fs == [] then [] else [t.Quoted(fs[0].column)] + ColumnNames(t, fs[1..])
  }

  function SelectColumns(t: Table): string { Join(ColumnNames(t, t.entity.fields), ", ") }

  lemma {:induction false} ColumnsSafe(t: Table, fs: seq<Keyset.Field>)
    requires t.Safe() && forall f <- fs :: SafeText(f.column)
    ensures SafeText(Join(ColumnNames(t, fs), ", "))
    ensures fs != [] ==> Join(ColumnNames(t, fs), ", ") != "" && !IsDigit(Join(ColumnNames(t, fs), ", ")[0])
  {
    hide SafeText, QuoteIdent;
    Words();
    if fs != [] {
      assert fs[0] in fs;
      SafeColumn(t, fs[0].column);
      ColumnsSafe(t, fs[1..]);
      var names := ColumnNames(t, fs);
      assert names[1..] == ColumnNames(t, fs[1..]);
      if |fs| > 1 {
        var rest := Join(names[1..], ", ");
        assert |names| > 1;
        SafeConcat(", ", rest);
        SafeConcat(names[0], ", " + rest);
        assert names[0] + ", " + rest == names[0] + (", " + rest);
      } else {
        assert fs[1..] == [] && names[1..] == [] && names == [names[0]];
      }
    } else {
      assert Join(ColumnNames(t, fs), ", ") == "";
    }
  }

  lemma Words0()
    ensures SafeText("") && SafeText(", ") && SafeText(" FROM ") && SafeText("SELECT ") && SafeText(" WHERE ")
    ensures SafeText("SELECT COUNT(*) FROM ") && SafeText(" ORDER BY ") && SafeText(" LIMIT ") && SafeText(" OFFSET ")
  {
  }

  lemma Words1()
    ensures SafeText(" FOR UPDATE") && SafeText(" LIMIT 1") && SafeText(" = ") && SafeText(" = NULL") &&
        SafeText(" SET ")
    ensures SafeText("UPDATE ") && SafeText("DELETE FROM ") && SafeText(" RETURNING ") && SafeText("INSERT INTO ")
  {
  }

  lemma Words2()
    ensures SafeText(" (") && SafeText(") VALUES (") && SafeText(")") && SafeText(" ASC") && SafeText(" DESC")
  {
  }

  lemma Words3()
    ensures SafeText("(") && SafeText(" IS NULL") && SafeText(" IS NULL) ASC") && SafeText(" IS NULL OR ") &&
        SafeText(" < ")
    ensures SafeText("deleted_at") && SafeText("updated_at") && SafeText(" IN (") && SafeText(" AND ")
  {
  }

  /** The fixed words of a statement are safe text. */
  lemma Words()
    ensures SafeText("") && SafeText(", ") && SafeText(" FROM ") && SafeText("SELECT ") && SafeText(" WHERE ")
    ensures SafeText("SELECT COUNT(*) FROM ") && SafeText(" ORDER BY ") && SafeText(" LIMIT ") && SafeText(" OFFSET ")
    ensures SafeText(" FOR UPDATE") && SafeText(" LIMIT 1") && SafeText(" = ") && SafeText(" = NULL") &&
        SafeText(" SET ")
    ensures SafeText("UPDATE ") && SafeText("DELETE FROM ") && SafeText(" RETURNING ") && SafeText("INSERT INTO ")
    ensures SafeText(" (") && SafeText(") VALUES (") && SafeText(")") && SafeText(" ASC") && SafeText(" DESC")
    ensures SafeText("(") && SafeText(" IS NULL") && SafeText(" IS NULL) ASC") && SafeText(" IS NULL OR ") &&
        SafeText(" < ")
    ensures SafeText("deleted_at") && SafeText("updated_at") && SafeText(" IN (") && SafeText(" AND ")
  {
    hide SafeText;
    Words0();
    Words1();
    Words2();
    Words3();
  }

  /** "SELECT … FROM table" */
  function SelectHead(t: Table): string {
    "SELECT " + SelectColumns(t) + " FROM " + t.Quoted(t.name)
  }

  lemma SelectHeadSafe(t: Table)
    requires t.Safe()
    ensures SafeText(SelectHead(t)) && SafeText(SelectColumns(t))
    ensures SelectColumns(t) == "" || !IsDigit(SelectColumns(t)[0])
  {
    hide SafeText, QuoteIdent;
    Words();
    ColumnsSafe(t, t.entity.fields);
    SafeColumn(t, t.name);
    EmptyColumns(t);
    SafeConcat("SELECT ", SelectColumns(t));
    SafeConcat("SELECT " + SelectColumns(t), " FROM ");
    SafeConcat("SELECT " + SelectColumns(t) + " FROM ", t.Quoted(t.name));
  }

  lemma EmptyColumns(t: Table)
    ensures t.entity.fields == [] ==> SelectColumns(t) == ""
  {
  }

  function WhereText(where: seq<string>): string {
    if where == [] then "" else " WHERE " + Join(where, " AND ")
  }

  function WhereMeaning(ms: seq<seq<Bound>>): seq<Bound> {
    if ms == [] then [] else Literal(" WHERE ") + JoinMeaning(ms, " AND ")
  }

  /** A statement so far, then its WHERE conditions. */
  lemma ThenWhere(head: string, mid: nat, vals: seq<Value>, m: seq<Bound>, where: seq<string>, ms: seq<seq<Bound>>)
    requires mid <= |vals| && Rendered(head, 0, mid, vals, m) && RendersAll(where, mid, |vals|, vals, ms)
    ensures Rendered(head + WhereText(where), 0, |vals|, vals, m + WhereMeaning(ms))
  {
    hide Rendered, SafeText, JoinMeaning, Join, Literal;
    if where == [] {
      AllRenderedNothing(where, mid, vals, ms);
      assert head + "" == head && m + [] == m && ms == [];
    } else {
      Words();
      SeparatorComma();
      RJoin(where, mid, |vals|, vals, ms, " AND ");
      var text := Join(where, " AND ");
      RAfterLiteral(" WHERE ", text, mid, |vals|, vals, JoinMeaning(ms, " AND "));
      RConcat(head, " WHERE " + text, 0, mid, |vals|, vals, m, Literal(" WHERE ") + JoinMeaning(ms, " AND "));
    }
  }

  /** "col = " and one argument. */
  function EqualsMeaning(t: Table, col: string, v: Value): seq<Bound> {
    Literal(t.Quoted(col) + " = ") + [Arg(v)]
  }

  method EqualsClause(a: Keyset.Args, t: Table, col: string, v: Value) returns (text: string)
    requires t.Safe() && SafeText(col)
    modifies a
    ensures a.vals == old(a.vals) + [v]
    ensures Rendered(text, |old(a.vals)|, |a.vals|, a.vals, EqualsMeaning(t, col, v))
    ensures text != "" && !IsDigit(text[0])
  {
    hide Rendered, SafeText, QuoteIdent, Literal;
    Words();
    SafeColumn(t, col);
    SafeConcat(t.Quoted(col), " = ");
    text := AroundArgument(a, t.Quoted(col) + " = ", v, "");
    LiteralOfNothing(EqualsMeaning(t, col, v));
    assert t.Quoted(col) + " = " + "" == t.Quoted(col) + " = ";
  }

  // ---- SELECT ----

  function OrderKeyText(t: Table, k: OrderKey): string {
    match k
    case NullFlag(col) => "(" + t.Quoted(col) + " IS NULL) ASC"
    case Column(col, desc) => t.Quoted(col) + if desc then " DESC" else " ASC"
  }

  function OrderTexts(t: Table, keys: seq<OrderKey>): seq<string> {
    if keys == [] then [] else [OrderKeyText(t, keys[0])] + OrderTexts(t, keys[1..])
  }

  /** The ORDER BY list of Keyset as text. */
  function OrderText(t: Table, s: Keyset.Sort): string { Join(OrderTexts(t, Keyset.OrderBy(t.entity, s)), ", ") }

  lemma OrderKeySafe(t: Table, k: OrderKey)
    requires t.Safe() && SafeText(k.col)
    ensures SafeText(OrderKeyText(t, k)) && OrderKeyText(t, k) != "" && !IsDigit(OrderKeyText(t, k)[0])
  {
    hide SafeText, QuoteIdent;
    Words();
    SafeColumn(t, k.col);
    var col := t.Quoted(k.col);
    match k
    case NullFlag(_) =>
      SafeConcat("(", col);
      SafeConcat("(" + col, " IS NULL) ASC");
    case Column(_, desc) =>
      SafeConcat(col, if desc then " DESC" else " ASC");
  }

  lemma {:induction false} OrderTextsSafe(t: Table, keys: seq<OrderKey>)
    requires t.Safe() && keys != [] && forall k <- keys :: SafeText(k.col)
    ensures var s := Join(OrderTexts(t, keys), ", "); SafeText(s) && s != "" && !IsDigit(s[0])
  {
    hide SafeText, OrderKeyText;
    Words();
    assert keys[0] in keys;
    OrderKeySafe(t, keys[0]);
    var texts := OrderTexts(t, keys);
    assert texts[1..] == OrderTexts(t, keys[1..]);
    if |keys| > 1 {
      OrderTextsSafe(t, keys[1..]);
      var rest := Join(texts[1..], ", ");
      SafeConcat(", ", rest);
      SafeConcat(texts[0], ", " + rest);
      assert |texts| > 1 && texts[0] + ", " + rest == texts[0] + (", " + rest);
    } else {
      assert keys[1..] == [] && texts[1..] == [] && texts == [texts[0]];
    }
  }

  datatype ListQuery = ListQuery(
    filters: seq<Filter>,
    sort: Keyset.Sort,
    limit: int,
    cursor: Option<Keyset.Cursor>,
    offset: int,
    row: RowFilter,
    search: Search)

  function Optional(m: seq<Bound>): seq<seq<Bound>> { if m == [] then [] else [m] }

  function ListConditions(t: Table, q: ListQuery, s: Keyset.Sort): seq<seq<Bound>>
    requires FiltersOk(t, q.filters)
  {
    FilterMeanings(t, q.filters) + GuardMeanings(t, q.row)
    + Optional(SearchMeaning(t, q.search))
    + (if q.cursor.Some? then [CursorMeaning(t, s, q.cursor.value)] else [])
  }

  function EffectiveLimit(limit: int): int { if limit <= 0 then 20 else limit }

  /** A list query: its conditions, the total order, the limit, and the offset unless a
      cursor takes its place. */
  function ListMeaning(t: Table, q: ListQuery, s: Keyset.Sort): seq<Bound>
    requires FiltersOk(t, q.filters)
  {
    Literal(SelectHead(t)) + WhereMeaning(ListConditions(t, q, s))
    + Literal(" ORDER BY " + OrderText(t, s) + " LIMIT ") + [Arg(Int(EffectiveLimit(q.limit)))]
    + if q.cursor.None? && q.offset > 0 then Literal(" OFFSET ") + [Arg(Int(q.offset))] else []
  }

  predicate ListOk(t: Table, q: ListQuery) {
    var s := Keyset.ResolveSort(t.entity, q.sort);
    && FiltersOk(t, q.filters) && s.Ok?
    && (q.cursor.Some? ==> q.cursor.value.sort == s.value.column && q.cursor.value.desc == s.value.desc)
  }

  lemma SortSafe(t: Table, s: Keyset.Sort)
    requires t.Safe() && Keyset.ResolveSort(t.entity, s).Ok?
    ensures var r := Keyset.ResolveSort(t.entity, s).value;
            SafeText(r.column) && SafeText(OrderText(t, r)) && OrderText(t, r) != "" && !IsDigit(OrderText(t, r)[0])
  {
    hide SafeText, Join;
    var r := Keyset.ResolveSort(t.entity, s).value;
    if s.column != "" {
      FoundColumn(t, s.column);
    }
    OrderTextsSafe(t, Keyset.OrderBy(t.entity, r));
  }

  /** The WHERE part of List. */
  method ListWhere(a: Keyset.Args, t: Table, q: ListQuery, s: Keyset.Sort) returns (r: Result<seq<string>>)
    requires t.Safe() && WellNumbered(q.row) && SafeText(s.column) && a.vals == []
    modifies a
    ensures r.Ok? <==>
      && FiltersOk(t, q.filters)
      && (q.cursor.Some? ==> q.cursor.value.sort == s.column && q.cursor.value.desc == s.desc)
    ensures r.Ok? ==> RendersAll(r.value, 0, |a.vals|, a.vals, ListConditions(t, q, s))
  {
    hide Rendered, RendersAll, WellNumbered, GuardMeanings, SearchMeaning, CursorMeaning, SafeText, SearchMeanings;
    var base := BaseWhere(a, t, q.filters, q.row);
    if base.Err? {
      return base;
    }
    var where := base.value;
    ghost var ms := FilterMeanings(t, q.filters) + GuardMeanings(t, q.row);
    ghost var prior := a.vals;
    var clause := SearchClause(a, t, q.search);
    SearchMeaningEmpty(t, q.search);
    if clause != "" {
      ghost var added := a.vals[|prior|..];
      assert prior + added == a.vals;
      AddClause(where, 0, |prior|, prior, ms, added, clause, SearchMeaning(t, q.search));
      where, ms := where + [clause], ms + [SearchMeaning(t, q.search)];
    } else {
      EmptyRendered(|prior|, a.vals, SearchMeaning(t, q.search));
      assert a.vals == prior;
    }
    assert ms == FilterMeanings(t, q.filters) + GuardMeanings(t, q.row) + Optional(SearchMeaning(t, q.search));
    if q.cursor.Some? {
      ghost var before := a.vals;
      var keyset := KeysetText(a, t, s, q.cursor.value);
      if keyset.Err? {
        return Err(keyset.message);
      }
      AddClause(where, 0, |before|, before, ms, Keyset.KeysetArgs(t.entity, s, q.cursor.value), keyset.value,
                CursorMeaning(t, s, q.cursor.value));
      where, ms := where + [keyset.value], ms + [CursorMeaning(t, s, q.cursor.value)];
    }
    assert ms == ListConditions(t, q, s);
    r := Ok(where);
  }

  lemma SearchMeaningEmpty(t: Table, s: Search)
    ensures SearchMeaning(t, s) == [] <==> s.term == "" || SearchMeanings(t, s, |s.columns|) == []
  {
    hide SearchMeanings, JoinMeaning;
  }

  lemma EmptyRendered(lo: nat, vals: seq<Value>, m: seq<Bound>)
    requires Rendered("", lo, |vals|, vals, m)
    ensures lo == |vals|
  {
    EmptyText(vals);
    RangeElements(lo, |vals|, |vals|);
  }

  /** Builder.List */
  method List(t: Table, d: Dialect, q: ListQuery) returns (r: Result<Prepared>)
    requires t.Safe() && WellNumbered(q.row)
    ensures r.Ok? <==> ListOk(t, q)
    ensures r.Ok? ==> Executes(d, r.value, ListMeaning(t, q, Keyset.ResolveSort(t.entity, q.sort).value))
  {
    hide Rendered, RendersAll, WellNumbered, SafeText, Executes, SelectHead, OrderText, ListConditions, Literal;
    var a := new Keyset.Args();
    var sort := Keyset.ResolveSort(t.entity, q.sort);
    if sort.Err? {
      return Err(sort.message);
    }
    SortSafe(t, q.sort);
    var where := ListWhere(a, t, q, sort.value);
    if where.Err? {
      return Err(where.message);
    }
    ghost var ms := ListConditions(t, q, sort.value);
    var sql := SelectHead(t);
    SelectHeadSafe(t);
    RLiteral(sql, 0, a.vals);
    ThenWhere(sql, 0, a.vals, Literal(sql), where.value, ms);
    sql := sql + WhereText(where.value);
    ghost var m := Literal(SelectHead(t)) + WhereMeaning(ms);
    var order := " ORDER BY " + OrderText(t, sort.value) + " LIMIT ";
    Words();
    SafeConcat(" ORDER BY ", OrderText(t, sort.value));
    SafeConcat(" ORDER BY " + OrderText(t, sort.value), " LIMIT ");
    RThenLiteral(sql, 0, |a.vals|, a.vals, m, order);
    sql, m := sql + order, m + Literal(order);
    ghost var prior := a.vals;
    var limit := AddPlaceholder(a, Int(EffectiveLimit(q.limit)));
    RThenArgument(sql, 0, prior, m, Int(EffectiveLimit(q.limit)));
    sql, m := sql + limit, m + [Arg(Int(EffectiveLimit(q.limit)))];
    if q.cursor.None? && q.offset > 0 {
      RThenLiteral(sql, 0, |a.vals|, a.vals, m, " OFFSET ");
      sql, m := sql + " OFFSET ", m + Literal(" OFFSET ");
      prior := a.vals;
      var offset := AddPlaceholder(a, Int(q.offset));
      RThenArgument(sql, 0, prior, m, Int(q.offset));
      sql, m := sql + offset, m + [Arg(Int(q.offset))];
    }
    assert m == ListMeaning(t, q, sort.value);
    var p := Prepare(d, sql, a.vals, m);
    r := Ok(p);
  }

  /** Builder.Count */
  method Count(t: Table, d: Dialect, filters: seq<Filter>, row: RowFilter, search: Search) returns (r: Result<Prepared>)
    requires t.Safe() && WellNumbered(row)
    ensures r.Ok? <==> FiltersOk(t, filters)
    ensures r.Ok? ==> Executes(d, r.value, Literal(CountHead(t)) +
      WhereMeaning(FilterMeanings(t, filters) + GuardMeanings(t, row) + Optional(SearchMeaning(t, search))))
  {
    hide Rendered, RendersAll, WellNumbered, SafeText, Executes, Literal, GuardMeanings, SearchMeaning, QuoteIdent;
    var a := new Keyset.Args();
    var q := ListQuery(filters, Keyset.Sort("", false), 0, None, 0, row, search);
    Words();
    var where := ListWhere(a, t, q, Keyset.Sort(t.entity.PrimaryColumn(), false));
    if where.Err? {
      return Err(where.message);
    }
    ghost var ms := ListConditions(t, q, Keyset.Sort(t.entity.PrimaryColumn(), false));
    assert ms == FilterMeanings(t, filters) + GuardMeanings(t, row) + Optional(SearchMeaning(t, search));
    SafeColumn(t, t.name);
    SafeConcat("SELECT COUNT(*) FROM ", t.Quoted(t.name));
    var sql := CountHead(t);
    RLiteral(sql, 0, a.vals);
    ThenWhere(sql, 0, a.vals, Literal(sql), where.value, ms);
    var p := Prepare(d, sql + WhereText(where.value), a.vals, Literal(sql) + WhereMeaning(ms));
    r := Ok(p);
  }

  function CountHead(t: Table): string { "SELECT COUNT(*) FROM " + t.Quoted(t.name) }

  // ---- statements on one row ----

  /** The conditions on one row: its key, then soft delete (when asked for) and row access. */
  function RowConditions(t: Table, id: Value, row: RowFilter, live: bool): seq<seq<Bound>> {
    [EqualsMeaning(t, t.entity.PrimaryColumn(), id)] + GuardMeanings(t.(softDelete := live && t.softDelete), row)
  }

  method RowWhere(a: Keyset.Args, t: Table, id: Value, row: RowFilter, live: bool) returns (where: seq<string>)
    requires t.Safe() && WellNumbered(row)
    modifies a
    ensures old(a.vals) <= a.vals && where != []
    ensures RendersAll(where, |old(a.vals)|, |a.vals|, a.vals, RowConditions(t, id, row, live))
  {
    hide Rendered, RendersAll, WellNumbered, EqualsMeaning, GuardMeanings;
    ghost var prior := a.vals;
    NoClauses(|prior|, prior);
    var key := EqualsClause(a, t, t.entity.PrimaryColumn(), id);
    ghost var m := EqualsMeaning(t, t.entity.PrimaryColumn(), id);
    AddClause([], |prior|, |prior|, prior, [], [id], key, m);
    assert [] + [key] == [key] && [] + [m] == [m];
    where := AddGuards(a, t.(softDelete := live && t.softDelete), row, [key], |prior|, [m]);
  }

  /** Builder.Get */
  method GetRow(t: Table, d: Dialect, id: Value, row: RowFilter, forUpdate: bool) returns (p: Prepared)
    requires t.Safe() && WellNumbered(row)
    ensures Executes(d, p, Literal(SelectHead(t)) + WhereMeaning(RowConditions(t, id, row, true))
                           + Literal(if forUpdate && d.locks then " FOR UPDATE" else ""))
  {
    hide Rendered, RendersAll, WellNumbered, SafeText, Executes, SelectHead, RowConditions, Literal;
    var a := new Keyset.Args();
    var where := RowWhere(a, t, id, row, true);
    var sql := SelectHead(t);
    SelectHeadSafe(t);
    RLiteral(sql, 0, a.vals);
    ghost var ms := RowConditions(t, id, row, true);
    ThenWhere(sql, 0, a.vals, Literal(sql), where, ms);
    Words();
    var tail := if forUpdate && d.locks then " FOR UPDATE" else "";
    RThenLiteral(sql + WhereText(where), 0, |a.vals|, a.vals, Literal(sql) + WhereMeaning(ms), tail);
    p := Prepare(d, sql + WhereText(where) + tail, a.vals, Literal(sql) + WhereMeaning(ms) + Literal(tail));
  }

  /** Builder.Delete: stamp deleted_at on a live row, or remove the row. */
  method DeleteRow(t: Table, d: Dialect, id: Value, soft: bool, row: RowFilter, now: Value) returns (p: Prepared)
    requires t.Safe() && WellNumbered(row)
    ensures Executes(d, p, DeleteMeaning(t, id, soft, row, now))
  {
    hide Rendered, RendersAll, WellNumbered, SafeText, Executes, RowConditions, EqualsMeaning, Literal, QuoteIdent;
    var a := new Keyset.Args();
    Words();
    SafeColumn(t, t.name);
    if soft && t.softDelete {
      var head := "UPDATE " + t.Quoted(t.name) + " SET ";
      SafeConcat("UPDATE ", t.Quoted(t.name));
      SafeConcat("UPDATE " + t.Quoted(t.name), " SET ");
      var set_ := EqualsClause(a, t, "deleted_at", now);
      ghost var first := a.vals;
      RLiteral(head, 0, first);
      RConcat(head, set_, 0, 0, 1, first, Literal(head), EqualsMeaning(t, "deleted_at", now));
      ghost var m := Literal(head) + EqualsMeaning(t, "deleted_at", now);
      var where := RowWhere(a, t, id, row, true);
      ghost var more := a.vals[|first|..];
      assert first + more == a.vals;
      RGrow(head + set_, 0, 1, first, m, more);
      ThenWhere(head + set_, 1, a.vals, m, where, RowConditions(t, id, row, true));
      p := Prepare(d, head + set_ + WhereText(where), a.vals, m + WhereMeaning(RowConditions(t, id, row, true)));
    } else {
      var head := "DELETE FROM " + t.Quoted(t.name);
      SafeConcat("DELETE FROM ", t.Quoted(t.name));
      var where := RowWhere(a, t, id, row, false);
      RLiteral(head, 0, a.vals);
      ThenWhere(head, 0, a.vals, Literal(head), where, RowConditions(t, id, row, false));
      p := Prepare(d, head + WhereText(where), a.vals, Literal(head) + WhereMeaning(RowConditions(t, id, row, false)));
    }
  }

  function DeleteMeaning(t: Table, id: Value, soft: bool, row: RowFilter, now: Value): seq<Bound> {
    if soft && t.softDelete then
      Literal("UPDATE " + t.Quoted(t.name) + " SET ") + EqualsMeaning(t, "deleted_at", now)
      + WhereMeaning(RowConditions(t, id, row, true))
    else Literal("DELETE FROM " + t.Quoted(t.name)) + WhereMeaning(RowConditions(t, id, row, false))
  }

  // ---- INSERT and UPDATE ----

  /** lookup: by column name, then by field name. */
  function Lookup(data: map<string, Value>, f: Keyset.Field): Option<Value> {
    if f.column in data then Some(data[f.column])
    else if f.name in data then Some(data[f.name])
    else None
  }

  /** The fields that data has a value for, with the values, among the first k. */
  function Given(t: Table, data: map<string, Value>, k: nat): seq<(Keyset.Field, Value)>
    requires k <= |t.entity.fields|
  {
    if k == 0 then []
    else
      var f := t.entity.fields[k - 1];
      Given(t, data, k - 1) + if Lookup(data, f).Some? then [(f, Lookup(data, f).value)] else []
  }

  function FieldsOf(given: seq<(Keyset.Field, Value)>): seq<Keyset.Field> {
    seq(|given|, i requires 0 <= i < |given| => given[i].0)
  }

  function ValuesOf(given: seq<(Keyset.Field, Value)>): seq<Value> {
    seq(|given|, i requires 0 <= i < |given| => given[i].1)
  }

  function ReturningText(t: Table, d: Dialect): string {
    if d.returning then " RETURNING " + SelectColumns(t) else ""
  }

  lemma ReturningSafe(t: Table, d: Dialect)
    requires t.Safe()
    ensures SafeText(ReturningText(t, d)) && (ReturningText(t, d) == "" || !IsDigit(ReturningText(t, d)[0]))
  {
    hide SafeText, SelectColumns;
    Words();
    SelectHeadSafe(t);
    SafeConcat(" RETURNING ", SelectColumns(t));
  }

  function InsertHead(t: Table, given: seq<(Keyset.Field, Value)>): string {
    "INSERT INTO " + t.Quoted(t.name) + " (" + Join(ColumnNames(t, FieldsOf(given)), ", ") + ") VALUES ("
  }

  lemma InsertHeadSafe(t: Table, given: seq<(Keyset.Field, Value)>)
    requires t.Safe() && forall g <- given :: g.0 in t.entity.fields
    ensures SafeText(InsertHead(t, given))
  {
    hide SafeText, QuoteIdent, Join, ColumnNames;
    Words();
    SafeColumn(t, t.name);
    var fs := FieldsOf(given);
    forall f | f in fs ensures SafeText(f.column) {
      var i :| 0 <= i < |fs| && fs[i] == f;
      assert given[i] in given;
    }
    ColumnsSafe(t, fs);
    var cols := Join(ColumnNames(t, fs), ", ");
    NoColumns(t, fs);
    SafeConcat("INSERT INTO ", t.Quoted(t.name));
    SafeConcat("INSERT INTO " + t.Quoted(t.name), " (");
    SafeConcat("INSERT INTO " + t.Quoted(t.name) + " (", cols);
    SafeConcat("INSERT INTO " + t.Quoted(t.name) + " (" + cols, ") VALUES (");
  }

  lemma NoColumns(t: Table, fs: seq<Keyset.Field>)
    ensures fs == [] ==> Join(ColumnNames(t, fs), ", ") == ""
  {
  }

  /** The columns given, in the entity's order, and the values in the same order. */
  function CreateMeaning(t: Table, d: Dialect, data: map<string, Value>): seq<Bound> {
    var given := Given(t, data, |t.entity.fields|);
    Literal(InsertHead(t, given)) + JoinMeaning(ArgList(ValuesOf(given)), ", ") + Literal(")" + ReturningText(t, d))
  }

  function PrimaryField(e: Keyset.Entity, from: nat := 0): (f: Option<Keyset.Field>)
    ensures f.Some? ==> f.value in e.fields
    decreases |e.fields| - from
  {
    if from >= |e.fields| then None
    else if e.fields[from].primaryKey then Some(e.fields[from])
    else PrimaryField(e, from + 1)
  }

  lemma PrimaryStep(e: Keyset.Entity, from: nat)
    requires from <= |e.fields|
    ensures from == |e.fields| ==> PrimaryField(e, from) == None && e.PrimaryColumn(from) == "id"
    ensures from < |e.fields| && e.fields[from].primaryKey ==>
      PrimaryField(e, from) == Some(e.fields[from]) && e.PrimaryColumn(from) == e.fields[from].column
    ensures from < |e.fields| && !e.fields[from].primaryKey ==>
      PrimaryField(e, from) == PrimaryField(e, from + 1) && e.PrimaryColumn(from) == e.PrimaryColumn(from + 1)
  {
  }

  predicate IsFirstPrimary(e: Keyset.Entity, from: nat, i: nat)
    requires i < |e.fields|
  {
    e.fields[i].primaryKey && forall j :: from <= j < i ==> !e.fields[j].primaryKey
  }

  /** The primary field is the first that is marked; its column is the entity's primary column. */
  lemma {:induction false} PrimaryFieldIsFirst(e: Keyset.Entity, from: nat)
    requires from <= |e.fields|
    ensures PrimaryField(e, from).None? <==> forall i :: from <= i < |e.fields| ==> !e.fields[i].primaryKey
    ensures PrimaryField(e, from).Some? ==>
      exists i :: from <= i < |e.fields| && IsFirstPrimary(e, from, i) && PrimaryField(e, from).value == e.fields[i]
    ensures e.PrimaryColumn(from) == if PrimaryField(e, from).Some? then PrimaryField(e, from).value.column else "id"
    decreases |e.fields| - from
  {
    hide PrimaryField, Keyset.Entity.PrimaryColumn;
    PrimaryStep(e, from);
    if from < |e.fields| {
      if e.fields[from].primaryKey {
        assert IsFirstPrimary(e, from, from);
      } else {
        PrimaryFieldIsFirst(e, from + 1);
        if PrimaryField(e, from).Some? {
          var i :| from + 1 <= i < |e.fields| && IsFirstPrimary(e, from + 1, i) &&
              PrimaryField(e, from + 1).value == e.fields[i];
          assert IsFirstPrimary(e, from, i);
        }
      }
    }
  }

  predicate Unset(v: Option<Value>) { v.None? || v.value == Null || v.value == Text("") }

  /** The record with a generated id where a uuid primary key has no value. */
  function WithKey(t: Table, uuidKey: bool, data: map<string, Value>, newId: Value): map<string, Value> {
    match PrimaryField(t.entity)
    case None => data
    case Some(pk) =>
      if uuidKey && Unset(Lookup(data, pk))
      then (if pk.name != pk.column then data - {pk.name} else data)[pk.column := newId]
      else data
  }

  /** A uuid key is generated exactly when the record has none, nil or an empty one under the column,
      or, without the column, under the field's name; every other entry stays. */
  lemma KeyIsGenerated(t: Table, data: map<string, Value>, newId: Value, pk: Keyset.Field)
    requires PrimaryField(t.entity) == Some(pk)
    ensures var given := if pk.column in data then Some(data[pk.column])
        else if pk.name in data then Some(data[pk.name]) else None;
      var after := WithKey(t, true, data, newId);
      if given == None || given == Some(Null) || given == Some(Text("")) then
        after == (if pk.name == pk.column then data else data - {pk.name})[pk.column := newId]
      else after == data
    ensures WithKey(t, false, data, newId) == data
  {
  }

  /** Builder.Create: the INSERT; uuidKey tells whether the primary key is a uuid, newId is the
      id generated for this call. */
  method Create(t: Table, d: Dialect, uuidKey: bool, record: map<string, Value>, newId: Value)
    returns (r: Result<Prepared>, data: map<string, Value>)
    requires t.Safe()
    ensures data == WithKey(t, uuidKey, record, newId)
    ensures r.Ok? <==> Given(t, data, |t.entity.fields|) != []
    ensures r.Ok? ==> Executes(d, r.value, CreateMeaning(t, d, data))
  {
    data := record;
    var pk := PrimaryField(t.entity);
    if pk.Some? && uuidKey {
      if Unset(Lookup(data, pk.value)) {
        if pk.value.name != pk.value.column {
          data := data - {pk.value.name};
        }
        data := data[pk.value.column := newId];
      }
    }
    r := InsertGiven(t, d, data);
  }

  /** The row read back where the database has no RETURNING: by the key inserted, or by the id
      the driver reports when none was. */
  function ReadBackId(t: Table, data: map<string, Value>, lastId: Value): Value {
    match PrimaryField(t.entity)
    case None => lastId
    case Some(pk) =>
      var v := Lookup(data, pk);
      if v.Some? && v.value != Null then v.value else lastId
  }

  method ReadBack(t: Table, d: Dialect, data: map<string, Value>, lastId: Value) returns (p: Prepared)
    requires t.Safe()
    ensures Executes(d, p, Literal(SelectHead(t))
                           + WhereMeaning(RowConditions(t, ReadBackId(t, data, lastId), RowFilter("", []), true)) +
                               Literal(""))
  {
    hide Executes, SelectHead, WhereMeaning, RowConditions;
    NoFilterIsWellNumbered();
    var pk := PrimaryField(t.entity);
    var id := Null;
    if pk.Some? {
      var v := Lookup(data, pk.value);
      if v.Some? {
        id := v.value;
      }
    }
    if id == Null {
      id := lastId;
    }
    p := GetRow(t, d, id, RowFilter("", []), false);
  }

  lemma NoFilterIsWellNumbered()
    ensures WellNumbered(RowFilter("", []))
  {
    EmptyText([]);
  }

  /** A record with a uuid key is read back by exactly the key it was inserted with, whatever id
      the driver reports, on every database. */
  lemma CreateReadsItsRow(t: Table, record: map<string, Value>, newId: Value, lastId: Value)
    requires PrimaryField(t.entity).Some? && newId != Null
    ensures var pk := PrimaryField(t.entity).value;
      var data := WithKey(t, true, record, newId);
      && (pk, ReadBackId(t, data, lastId)) in Given(t, data, |t.entity.fields|)
      && ReadBackId(t, data, lastId) == (if Unset(Lookup(record, pk)) then newId else Lookup(record, pk).value)
  {
    var pk := PrimaryField(t.entity).value;
    var data := WithKey(t, true, record, newId);
    var i :| 0 <= i < |t.entity.fields| && t.entity.fields[i] == pk;
    GivenHolds(t, data, i, |t.entity.fields|);
  }

  lemma {:induction false} GivenHolds(t: Table, data: map<string, Value>, i: nat, k: nat)
    requires i < k <= |t.entity.fields| && Lookup(data, t.entity.fields[i]).Some?
    ensures (t.entity.fields[i], Lookup(data, t.entity.fields[i]).value) in Given(t, data, k)
    decreases k
  {
    if i < k - 1 { GivenHolds(t, data, i, k - 1); }
  }

  method InsertGiven(t: Table, d: Dialect, data: map<string, Value>) returns (r: Result<Prepared>)
    requires t.Safe()
    ensures r.Ok? <==> Given(t, data, |t.entity.fields|) != []
    ensures r.Ok? ==> Executes(d, r.value, CreateMeaning(t, d, data))
  {
    hide Rendered, SafeText, Executes, InsertHead, ReturningText, JoinMeaning, Literal;
    var a := new Keyset.Args();
    var given: seq<(Keyset.Field, Value)> := [];
    for i := 0 to |t.entity.fields|
      invariant given == Given(t, data, i) && forall g <- given :: g.0 in t.entity.fields
    {
      var v := Lookup(data, t.entity.fields[i]);
      if v.Some? {
        given := given + [(t.entity.fields[i], v.value)];
      }
    }
    if given == [] {
      return Err("no valid fields");
    }
    var head := InsertHead(t, given);
    InsertHeadSafe(t, given);
    var list := ArgumentList(a, ValuesOf(given));
    ghost var m := JoinMeaning(ArgList(ValuesOf(given)), ", ");
    RLiteral(head, 0, a.vals);
    RConcat(head, list, 0, 0, |a.vals|, a.vals, Literal(head), m);
    ReturningSafe(t, d);
    Words();
    SafeConcat(")", ReturningText(t, d));
    RThenLiteral(head + list, 0, |a.vals|, a.vals, Literal(head) + m, ")" + ReturningText(t, d));
    var p := Prepare(d, head + list + (")" + ReturningText(t, d)), a.vals, CreateMeaning(t, d, data));
    r := Ok(p);
  }

  /** The stale guard and the revival of a soft-deleted row. */
  datatype Guard = Guard(column: string, value: Value, revive: bool)

  predicate Settable(f: Keyset.Field) {
    !f.primaryKey && f.column != "updated_at" && f.column != "created_at" && f.column != "deleted_at"
  }

  /** One assignment for each settable field given, among the first k. */
  function SetMeanings(t: Table, data: map<string, Value>, k: nat): seq<seq<Bound>>
    requires k <= |t.entity.fields|
  {
    if k == 0 then []
    else
      var f := t.entity.fields[k - 1];
      SetMeanings(t, data, k - 1)
      + if Settable(f) && Lookup(data, f).Some? then [EqualsMeaning(t, f.column, Lookup(data, f).value)] else []
  }

  function AllSetMeanings(t: Table, data: map<string, Value>, g: Guard, now: Value): seq<seq<Bound>> {
    SetMeanings(t, data, |t.entity.fields|)
    + (if t.timestamps then [EqualsMeaning(t, "updated_at", now)] else [])
    + (if g.revive && t.softDelete then [Literal(t.Quoted("deleted_at") + " = NULL")] else [])
  }

  function GuardMeaning(t: Table, g: Guard): seq<Bound> {
    Literal("(" + t.Quoted(g.column) + " IS NULL OR " + t.Quoted(g.column) + " < ") + [Arg(g.value)] + Literal(")")
  }

  function UpdateConditions(t: Table, id: Value, row: RowFilter, g: Guard): seq<seq<Bound>> {
    RowConditions(t, id, row, !g.revive)
    + if g.column != "" && g.value != Null then [GuardMeaning(t, g)] else []
  }

  predicate UpdateOk(t: Table, data: map<string, Value>, g: Guard, now: Value) {
    (SetMeanings(t, data, |t.entity.fields|) != [] || g.revive) && AllSetMeanings(t, data, g, now) != []
  }

  function UpdateHead(t: Table): string { "UPDATE " + t.Quoted(t.name) + " SET " }

  function UpdateMeaning(t: Table, d: Dialect, id: Value, data: map<string, Value>, row: RowFilter, g: Guard,
                         now: Value): seq<Bound> {
    Literal(UpdateHead(t)) + JoinMeaning(AllSetMeanings(t, data, g, now), ", ")
    + WhereMeaning(UpdateConditions(t, id, row, g)) + Literal(ReturningText(t, d))
  }

  method SetClauses(a: Keyset.Args, t: Table, data: map<string, Value>) returns (sets: seq<string>)
    requires t.Safe() && a.vals == []
    modifies a
    ensures RendersAll(sets, 0, |a.vals|, a.vals, SetMeanings(t, data, |t.entity.fields|))
    ensures sets != [] ==> sets[0] != "" && !IsDigit(sets[0][0])
  {
    hide Rendered, RendersAll, SafeText, EqualsMeaning;
    sets := [];
    NoClauses(0, a.vals);
    for i := 0 to |t.entity.fields|
      invariant RendersAll(sets, 0, |a.vals|, a.vals, SetMeanings(t, data, i))
      invariant sets != [] ==> sets[0] != "" && !IsDigit(sets[0][0])
    {
      var f := t.entity.fields[i];
      var v := Lookup(data, f);
      if !Settable(f) || v.None? {
        assert SetMeanings(t, data, i + 1) == SetMeanings(t, data, i);
        continue;
      }
      assert f in t.entity.fields;
      ghost var prior := a.vals;
      var clause := EqualsClause(a, t, f.column, v.value);
      AddClause(sets, 0, |prior|, prior, SetMeanings(t, data, i), [v.value], clause,
          EqualsMeaning(t, f.column, v.value));
      sets := sets + [clause];
    }
  }

  /** updated_at and deleted_at. */
  method StampClauses(a: Keyset.Args, t: Table, sets: seq<string>, ghost ms: seq<seq<Bound>>, g: Guard,
                      now: Value) returns (r: seq<string>)
    requires t.Safe() && RendersAll(sets, 0, |a.vals|, a.vals, ms)
    requires sets != [] ==> sets[0] != "" && !IsDigit(sets[0][0])
    modifies a
    ensures RendersAll(r, 0, |a.vals|, a.vals, ms
      + (if t.timestamps then [EqualsMeaning(t, "updated_at", now)] else [])
      + (if g.revive && t.softDelete then [Literal(t.Quoted("deleted_at") + " = NULL")] else []))
    ensures r != [] ==> r[0] != "" && !IsDigit(r[0][0])
  {
    hide Rendered, RendersAll, SafeText, EqualsMeaning, QuoteIdent, Literal;
    r := sets;
    ghost var done := ms;
    Words();
    if t.timestamps {
      ghost var prior := a.vals;
      var clause := EqualsClause(a, t, "updated_at", now);
      AddClause(r, 0, |prior|, prior, done, [now], clause, EqualsMeaning(t, "updated_at", now));
      r, done := r + [clause], done + [EqualsMeaning(t, "updated_at", now)];
    }
    if g.revive && t.softDelete {
      SafeColumn(t, "deleted_at");
      var clause := t.Quoted("deleted_at") + " = NULL";
      SafeConcat(t.Quoted("deleted_at"), " = NULL");
      RLiteral(clause, |a.vals|, a.vals);
      assert a.vals + [] == a.vals;
      AddClause(r, 0, |a.vals|, a.vals, done, [], clause, Literal(clause));
      r, done := r + [clause], done + [Literal(clause)];
    }
    assert done == ms
      + (if t.timestamps then [EqualsMeaning(t, "updated_at", now)] else [])
      + (if g.revive && t.softDelete then [Literal(t.Quoted("deleted_at") + " = NULL")] else []);
  }

  method UpdateWhere(a: Keyset.Args, t: Table, id: Value, row: RowFilter, g: Guard) returns (where: seq<string>)
    requires t.Safe() && WellNumbered(row) && SafeText(g.column)
    modifies a
    ensures old(a.vals) <= a.vals
    ensures RendersAll(where, |old(a.vals)|, |a.vals|, a.vals, UpdateConditions(t, id, row, g))
  {
    hide Rendered, RendersAll, WellNumbered, SafeText, RowConditions, QuoteIdent, Literal;
    ghost var lo := |a.vals|;
    where := RowWhere(a, t, id, row, !g.revive);
    ghost var ms := RowConditions(t, id, row, !g.revive);
    if g.column != "" && g.value != Null {
      Words();
      SafeColumn(t, g.column);
      var col := t.Quoted(g.column);
      SafeConcat("(", col);
      SafeConcat("(" + col, " IS NULL OR ");
      SafeConcat("(" + col + " IS NULL OR ", col);
      SafeConcat("(" + col + " IS NULL OR " + col, " < ");
      ghost var prior := a.vals;
      var clause := AroundArgument(a, "(" + col + " IS NULL OR " + col + " < ", g.value, ")");
      AddClause(where, lo, |prior|, prior, ms, [g.value], clause, GuardMeaning(t, g));
      where := where + [clause];
    } else {
      assert ms + [] == ms;
    }
  }

  lemma UpdateHeadRenders(t: Table, sets: seq<string>, vals: seq<Value>, sm: seq<seq<Bound>>)
    requires t.Safe() && RendersAll(sets, 0, |vals|, vals, sm) && sets != [] && sets[0] != "" && !IsDigit(sets[0][0])
    ensures Rendered(UpdateHead(t) + Join(sets, ", "), 0, |vals|, vals, Literal(UpdateHead(t)) + JoinMeaning(sm, ", "))
  {
    hide Rendered, RendersAll, SafeText, Literal, QuoteIdent, JoinMeaning, Join;
    Words();
    SafeColumn(t, t.name);
    var head := UpdateHead(t);
    SafeConcat("UPDATE ", t.Quoted(t.name));
    SafeConcat("UPDATE " + t.Quoted(t.name), " SET ");
    SeparatorComma();
    RJoin(sets, 0, |vals|, vals, sm, ", ");
    RLiteral(head, 0, vals);
    JoinStart(sets, ", ");
    RConcat(head, Join(sets, ", "), 0, 0, |vals|, vals, Literal(head), JoinMeaning(sm, ", "));
  }

  /** A head, the conditions bound after it, and RETURNING. */
  lemma StatementRenders(t: Table, d: Dialect, head: string, m: seq<Bound>, first: seq<Value>, vals: seq<Value>,
                                            where: seq<string>, cm: seq<seq<Bound>>)
    requires t.Safe() && first <= vals && Rendered(head, 0, |first|, first, m) &&
        RendersAll(where, |first|, |vals|, vals, cm)
    ensures Rendered(head + WhereText(where) + ReturningText(t, d), 0, |vals|, vals,
        m + WhereMeaning(cm) + Literal(ReturningText(t, d)))
  {
    hide Rendered, RendersAll, SafeText, Literal, ReturningText, WhereText, WhereMeaning;
    var more := vals[|first|..];
    assert first + more == vals;
    RGrow(head, 0, |first|, first, m, more);
    ThenWhere(head, |first|, vals, m, where, cm);
    ReturningSafe(t, d);
    RThenLiteral(head + WhereText(where), 0, |vals|, vals, m + WhereMeaning(cm), ReturningText(t, d));
  }

  method FinishUpdate(a: Keyset.Args, t: Table, d: Dialect, id: Value, row: RowFilter, g: Guard, sets: seq<string>,
                      ghost sm: seq<seq<Bound>>)
    returns (p: Prepared)
    requires t.Safe() && WellNumbered(row) && SafeText(g.column)
    requires RendersAll(sets, 0, |a.vals|, a.vals, sm) && sets != [] && sets[0] != "" && !IsDigit(sets[0][0])
    modifies a
    ensures Executes(d, p,
        Literal(UpdateHead(t)) + JoinMeaning(sm, ", ") + WhereMeaning(UpdateConditions(t, id, row, g)) +
        Literal(ReturningText(t, d)))
  {
    hide Rendered, RendersAll, WellNumbered, SafeText, Executes, UpdateConditions, UpdateHead, Literal, JoinMeaning,
      Join, ReturningText, WhereMeaning, WhereText;
    ghost var first := a.vals;
    UpdateHeadRenders(t, sets, first, sm);
    var sql := UpdateHead(t) + Join(sets, ", ");
    ghost var m := Literal(UpdateHead(t)) + JoinMeaning(sm, ", ");
    var where := UpdateWhere(a, t, id, row, g);
    StatementRenders(t, d, sql, m, first, a.vals, where, UpdateConditions(t, id, row, g));
    p := Prepare(d, sql + WhereText(where) + ReturningText(t, d), a.vals,
                 m + WhereMeaning(UpdateConditions(t, id, row, g)) + Literal(ReturningText(t, d)));
  }

  /** Builder.update: assignments first, then the conditions, the stale guard last. */
  method Update(t: Table, d: Dialect, id: Value, data: map<string, Value>, row: RowFilter, g: Guard,
                now: Value) returns (r: Result<Prepared>)
    requires t.Safe() && WellNumbered(row) && SafeText(g.column)
    ensures r.Ok? <==> UpdateOk(t, data, g, now)
    ensures r.Ok? ==> Executes(d, r.value, UpdateMeaning(t, d, id, data, row, g, now))
  {
    hide Rendered, RendersAll, WellNumbered, SafeText, Executes, UpdateConditions, EqualsMeaning, Literal, QuoteIdent,
        JoinMeaning,
      Join, ReturningText, SetMeanings, WhereMeaning, UpdateHead, UpdateMeaning;
    NamesUpdate(t, d, id, data, row, g, now);
    var a := new Keyset.Args();
    var sets := SetClauses(a, t, data);
    SameCount(sets, 0, |a.vals|, a.vals, SetMeanings(t, data, |t.entity.fields|));
    if |sets| == 0 && !g.revive {
      return Err("no valid fields");
    }
    sets := StampClauses(a, t, sets, SetMeanings(t, data, |t.entity.fields|), g, now);
    ghost var sm := AllSetMeanings(t, data, g, now);
    SameCount(sets, 0, |a.vals|, a.vals, sm);
    if |sets| == 0 {
      return Err("no valid fields");
    }
    var p := FinishUpdate(a, t, d, id, row, g, sets, sm);
    r := Ok(p);
  }

  lemma NamesUpdate(t: Table, d: Dialect, id: Value, data: map<string, Value>, row: RowFilter, g: Guard, now: Value)
    ensures UpdateMeaning(t, d, id, data, row, g, now)
         == Literal(UpdateHead(t)) + JoinMeaning(AllSetMeanings(t, data, g, now), ", ")
            + WhereMeaning(UpdateConditions(t, id, row, g)) + Literal(ReturningText(t, d))
  {
  }

  lemma SameCount(parts: seq<string>, lo: nat, hi: nat, vals: seq<Value>, ms: seq<seq<Bound>>)
    requires RendersAll(parts, lo, hi, vals, ms)
    ensures |parts| == |ms|
  {
  }

  lemma JoinStart(parts: seq<string>, sep: string)
    requires parts != [] && parts[0] != ""
    ensures Join(parts, sep) != "" && Join(parts, sep)[0] == parts[0][0]
  {
  }

  // ---- lookups by key and by list ----

  function KeyMeanings(t: Table, key: seq<(string, Value)>): seq<seq<Bound>>
    requires forall k <- key :: t.entity.FindField(k.0).Some?
  {
    if key == [] then []
    else
      KeyMeanings(t, key[..|key| - 1])
      + [EqualsMeaning(t, t.entity.FindField(key[|key| - 1].0).value.column, key[|key| - 1].1)]
  }

  /** Builder.FindByKey; key holds the columns in sorted order with their values. */
  method FindByKey(t: Table, d: Dialect, key: seq<(string, Value)>, row: RowFilter, includeDeleted: bool,
                   forUpdate: bool) returns (r: Result<Prepared>)
    requires t.Safe() && WellNumbered(row)
    ensures r.Ok? <==> key != [] && forall k <- key :: t.entity.FindField(k.0).Some?
    ensures r.Ok? ==> Executes(d, r.value, Literal(SelectHead(t))
      + WhereMeaning(KeyMeanings(t, key) + GuardMeanings(t.(softDelete := t.softDelete && !includeDeleted), row))
      + Literal(" LIMIT 1" + if forUpdate && d.locks then " FOR UPDATE" else ""))
  {
    hide Rendered, RendersAll, WellNumbered, SafeText, Executes, SelectHead, EqualsMeaning, GuardMeanings, Literal;
    if key == [] {
      return Err("no valid fields");
    }
    var a := new Keyset.Args();
    var where: seq<string> := [];
    NoClauses(0, a.vals);
    for i := 0 to |key|
      invariant forall k <- key[..i] :: t.entity.FindField(k.0).Some?
      invariant RendersAll(where, 0, |a.vals|, a.vals, KeyMeanings(t, key[..i]))
    {
      var f := t.entity.FindField(key[i].0);
      if f.None? {
        assert key[i] in key;
        return Err("find by key: unknown field");
      }
      FoundColumn(t, key[i].0);
      ghost var prior := a.vals;
      var clause := EqualsClause(a, t, f.value.column, key[i].1);
      AddClause(where, 0, |prior|, prior, KeyMeanings(t, key[..i]), [key[i].1], clause,
          EqualsMeaning(t, f.value.column, key[i].1));
      assert key[..i + 1][..i] == key[..i];
      where := where + [clause];
    }
    assert key[..|key|] == key;
    var live := t.(softDelete := t.softDelete && !includeDeleted);
    where := AddGuards(a, live, row, where, 0, KeyMeanings(t, key));
    ghost var ms := KeyMeanings(t, key) + GuardMeanings(live, row);
    var sql := SelectHead(t);
    SelectHeadSafe(t);
    RLiteral(sql, 0, a.vals);
    ThenWhere(sql, 0, a.vals, Literal(sql), where, ms);
    Words();
    var tail := " LIMIT 1" + if forUpdate && d.locks then " FOR UPDATE" else "";
    SafeConcat(" LIMIT 1", if forUpdate && d.locks then " FOR UPDATE" else "");
    RThenLiteral(sql + WhereText(where), 0, |a.vals|, a.vals, Literal(sql) + WhereMeaning(ms), tail);
    var p := Prepare(d, sql + WhereText(where) + tail, a.vals, Literal(sql) + WhereMeaning(ms) + Literal(tail));
    r := Ok(p);
  }

  /** One batch of fetchIn without a junction table. */
  method FetchIn(t: Table, d: Dialect, col: string, keys: seq<Value>) returns (p: Prepared)
    requires t.Safe() && SafeText(col)
    ensures Executes(d, p, Literal(SelectHead(t) + " WHERE " + t.Quoted(col) + " IN (")
      + JoinMeaning(ArgList(keys), ", ")
      + Literal(")" + if t.softDelete then " AND " + t.Quoted("deleted_at") + " IS NULL" else ""))
  {
    hide Rendered, SafeText, Executes, SelectHead, Literal, QuoteIdent, JoinMeaning;
    var a := new Keyset.Args();
    Words();
    SelectHeadSafe(t);
    SafeColumn(t, col);
    SafeColumn(t, "deleted_at");
    var head := SelectHead(t) + " WHERE " + t.Quoted(col) + " IN (";
    SafeConcat(SelectHead(t), " WHERE ");
    SafeConcat(SelectHead(t) + " WHERE ", t.Quoted(col));
    SafeConcat(SelectHead(t) + " WHERE " + t.Quoted(col), " IN (");
    var list := ArgumentList(a, keys);
    ghost var m := JoinMeaning(ArgList(keys), ", ");
    RLiteral(head, 0, a.vals);
    RConcat(head, list, 0, 0, |a.vals|, a.vals, Literal(head), m);
    var live := if t.softDelete then " AND " + t.Quoted("deleted_at") + " IS NULL" else "";
    SafeConcat(" AND ", t.Quoted("deleted_at"));
    SafeConcat(" AND " + t.Quoted("deleted_at"), " IS NULL");
    SafeConcat(")", live);
    RThenLiteral(head + list, 0, |a.vals|, a.vals, Literal(head) + m, ")" + live);
    p := Prepare(d, head + list + (")" + live), a.vals, Literal(head) + m + Literal(")" + live));
  }

  // ---- the outcome of an update ----

  datatype Outcome = Updated | Stale | NotFound

  /** rows is what the statement returned or, without RETURNING, reports as affected; readBack
      tells whether Get finds the row afterwards, under the row filter. */
  method ReportUpdate(d: Dialect, g: Guard, rows: nat, readBack: bool) returns (r: Outcome)
    ensures r == UpdateOutcome(d, g, rows, readBack)
  {
    var guarded := g.column != "" && g.value != Null;
    if d.returning {
      if rows == 0 {
        if guarded {
          return Stale;
        }
        return NotFound;
      }
      return Updated;
    }
    if guarded {
      if rows == 0 {
        return Stale;
      }
    }
    if !readBack {
      return NotFound;
    }
    r := Updated;
  }

  function UpdateOutcome(d: Dialect, g: Guard, rows: nat, readBack: bool): Outcome {
    var guarded := g.column != "" && g.value != Null;
    if guarded && rows == 0 then Stale
    else if (if d.returning then rows > 0 else readBack) then Updated
    else NotFound
  }

  /** Databases with and without RETURNING report the same outcome of one update if and only if,
      under a guard, a matched row counts as affected and is found again; without a guard, the row
      is found exactly when it matched. Affected rows may be fewer than matched ones. */
  lemma OutcomesAgree(d: Dialect, e: Dialect, g: Guard, matched: bool, affected: nat, readBack: bool)
    requires d.returning && !e.returning
    requires affected <= (if matched then 1 else 0)
    ensures UpdateOutcome(d, g, if matched then 1 else 0, readBack) == UpdateOutcome(e, g, affected, readBack)
      <==> if g.column != "" && g.value != Null then matched ==> affected == 1 && readBack
           else matched == readBack
  {
  }

  // ---- the many-to-many join ----

  const PARENT_KEY: string := "__yaypi_parent"

  function Qualified(alias: string, t: Table, col: string): string { alias + t.Quoted(col) }

  function JoinColumns(t: Table, fs: seq<Keyset.Field>): seq<string> {
    if fs == [] then [] else [Qualified("o.", t, fs[0].column)] + JoinColumns(t, fs[1..])
  }

  /** The related columns, and the owner's key under its internal name. */
  function JoinSelection(t: Table, fk: string): string {
    Join(JoinColumns(t, t.entity.fields) + [Qualified("j.", t, fk) + " AS " + t.Quoted(PARENT_KEY)], ", ")
  }

  function JoinHead(t: Table, through: string, fk: string, other: string): string {
    "SELECT " + JoinSelection(t, fk) + " FROM " + t.Quoted(t.name) + " o JOIN " + t.Quoted(through) + " j ON "
    + Qualified("j.", t, other) + " = " + Qualified("o.", t, t.entity.PrimaryColumn())
    + " WHERE " + Qualified("j.", t, fk) + " IN ("
  }

  predicate AllSafe(parts: seq<string>) {
    forall i :: 0 <= i < |parts| ==> SafeText(parts[i]) && parts[i] != "" && !IsDigit(parts[i][0])
  }

  lemma {:induction false} SafeParts(parts: seq<string>)
    requires AllSafe(parts)
    ensures SafeText(Join(parts, ", ")) && (parts != [] ==> Join(parts, ", ") != "" && !IsDigit(Join(parts, ", ")[0]))
    decreases |parts|
  {
    hide SafeText;
    Words();
    if |parts| > 1 {
      assert AllSafe(parts[1..]);
      SafeParts(parts[1..]);
      var rest := Join(parts[1..], ", ");
      SafeConcat(", ", rest);
      SafeConcat(parts[0], ", " + rest);
      assert parts[0] + ", " + rest == parts[0] + (", " + rest);
    } else if |parts| == 1 {
      assert Join(parts, ", ") == parts[0];
    }
  }

  lemma QualifiedSafe(alias: string, t: Table, col: string)
    requires t.Safe() && SafeText(col) && (alias == "o." || alias == "j.")
    ensures SafeText(Qualified(alias, t, col)) && Qualified(alias, t, col) != "" &&
        !IsDigit(Qualified(alias, t, col)[0])
  {
    hide SafeText, QuoteIdent;
    JoinWords();
    SafeColumn(t, col);
    SafeConcat(alias, t.Quoted(col));
  }

  lemma JoinWords()
    ensures SafeText("o.") && SafeText("j.") && SafeText(" AS ") && SafeText(PARENT_KEY)
    ensures SafeText(" o JOIN ") && SafeText(" j ON ") && SafeText(" AND o.")
  {
  }

  lemma {:induction false} JoinColumnsSafe(t: Table, fs: seq<Keyset.Field>)
    requires t.Safe() && forall f <- fs :: SafeText(f.column)
    ensures AllSafe(JoinColumns(t, fs))
    decreases |fs|
  {
    hide SafeText, Qualified;
    if fs != [] {
      assert fs[0] in fs;
      QualifiedSafe("o.", t, fs[0].column);
      JoinColumnsSafe(t, fs[1..]);
    }
  }

  lemma JoinSelectionSafe(t: Table, fk: string)
    requires t.Safe() && SafeText(fk)
    ensures SafeText(JoinSelection(t, fk)) && JoinSelection(t, fk) != "" && !IsDigit(JoinSelection(t, fk)[0])
  {
    hide SafeText, Qualified, QuoteIdent, Join;
    JoinWords();
    JoinColumnsSafe(t, t.entity.fields);
    QualifiedSafe("j.", t, fk);
    SafeColumn(t, PARENT_KEY);
    SafeConcat(Qualified("j.", t, fk), " AS ");
    var key := Qualified("j.", t, fk) + " AS " + t.Quoted(PARENT_KEY);
    SafeConcat(Qualified("j.", t, fk) + " AS ", t.Quoted(PARENT_KEY));
    SafeParts(JoinColumns(t, t.entity.fields) + [key]);
  }

  lemma JoinHeadSafe(t: Table, through: string, fk: string, other: string)
    requires t.Safe() && SafeText(through) && SafeText(fk) && SafeText(other)
    ensures SafeText(JoinHead(t, through, fk, other))
  {
    hide SafeText, Qualified, QuoteIdent, JoinSelection;
    Words();
    JoinWords();
    JoinSelectionSafe(t, fk);
    SafeColumn(t, t.name);
    SafeColumn(t, through);
    QualifiedSafe("j.", t, other);
    QualifiedSafe("o.", t, t.entity.PrimaryColumn());
    QualifiedSafe("j.", t, fk);
    var s := "SELECT " + JoinSelection(t, fk);
    SafeConcat("SELECT ", JoinSelection(t, fk));
    SafeConcat(s, " FROM ");
    s := s + " FROM ";
    SafeConcat(s, t.Quoted(t.name));
    s := s + t.Quoted(t.name);
    SafeConcat(s, " o JOIN ");
    s := s + " o JOIN ";
    SafeConcat(s, t.Quoted(through));
    s := s + t.Quoted(through);
    SafeConcat(s, " j ON ");
    s := s + " j ON ";
    SafeConcat(s, Qualified("j.", t, other));
    s := s + Qualified("j.", t, other);
    SafeConcat(s, " = ");
    s := s + " = ";
    SafeConcat(s, Qualified("o.", t, t.entity.PrimaryColumn()));
    s := s + Qualified("o.", t, t.entity.PrimaryColumn());
    SafeConcat(s, " WHERE ");
    s := s + " WHERE ";
    SafeConcat(s, Qualified("j.", t, fk));
    s := s + Qualified("j.", t, fk);
    SafeConcat(s, " IN (");
  }

  /** One batch of fetchIn over a junction table. */
  method FetchJoin(t: Table, d: Dialect, through: string, fk: string, other: string,
                   keys: seq<Value>) returns (p: Prepared)
    requires t.Safe() && SafeText(through) && SafeText(fk) && SafeText(other)
    ensures Executes(d, p, Literal(JoinHead(t, through, fk, other))
      + JoinMeaning(ArgList(keys), ", ")
      + Literal(")" + if t.softDelete then " AND " + Qualified("o.", t, "deleted_at") + " IS NULL" else ""))
  {
    hide Rendered, SafeText, Executes, JoinHead, Literal, QuoteIdent, JoinMeaning, Qualified;
    var a := new Keyset.Args();
    Words();
    JoinHeadSafe(t, through, fk, other);
    QualifiedSafe("o.", t, "deleted_at");
    var head := JoinHead(t, through, fk, other);
    var list := ArgumentList(a, keys);
    ghost var m := JoinMeaning(ArgList(keys), ", ");
    RLiteral(head, 0, a.vals);
    RConcat(head, list, 0, 0, |a.vals|, a.vals, Literal(head), m);
    var live := if t.softDelete then " AND " + Qualified("o.", t, "deleted_at") + " IS NULL" else "";
    SafeConcat(" AND ", Qualified("o.", t, "deleted_at"));
    SafeConcat(" AND " + Qualified("o.", t, "deleted_at"), " IS NULL");
    SafeConcat(")", live);
    RThenLiteral(head + list, 0, |a.vals|, a.vals, Literal(head) + m, ")" + live);
    p := Prepare(d, head + list + (")" + live), a.vals, Literal(head) + m + Literal(")" + live));
  }
}
