/** A whole listing: the text that Builder.List executes (internal/query/builder.go), read as a
    SELECT and run on a table, answers with the rows that the pages are made of. */
module ListAnswer {
  import opened SqlLogic
  import opened Strings
  import opened Placeholders
  import opened Rendering
  import opened QueryText
  import opened QueryBuilder
  import opened SqlReader
  import opened QuerySemantics
  import opened FilterSemantics
  import Keyset
  import Paging

  // ---- columns and order ----

  function ColumnsOf(fs: seq<Keyset.Field>): seq<string> {
    if fs == [] then [] else [fs[0].column] + ColumnsOf(fs[1..])
  }

  lemma {:induction false} NamesReadOn(t: Table, fs: seq<Keyset.Field>, w: string, rest: seq<Bound>)
    requires IsQuote(t.quote) && fs != [] && w != "" && (w[0] == ' ' || w[0] == ')')
    ensures ReadNames(Literal(Join(ColumnNames(t, fs), ", ") + w) + rest, t.quote)
        == Got(ColumnsOf(fs), Literal(w) + rest)
    decreases |fs|
  {
    hide Says, Literal, QuoteIdent, ReadName;
    var names := ColumnNames(t, fs);
    assert names[1..] == ColumnNames(t, fs[1..]);
    if |fs| == 1 {
      assert fs[1..] == [] && names == [names[0]] && ColumnsOf(fs) == [fs[0].column];
      NameThen(t.quote, fs[0].column, w, rest);
      OtherWord(w, rest, ", ", 0);
    } else {
      var tail := Join(names[1..], ", ") + w;
      NamesReadOn(t, fs[1..], w, rest);
      assert |names| > 1 by { assert |ColumnNames(t, fs[1..])| > 0; }
      assert Join(names, ", ") + w == (t.Quoted(fs[0].column) + ", ") + tail;
      LiteralOfConcat(t.Quoted(fs[0].column) + ", ", tail);
      var after := Literal(tail) + rest;
      assert Literal(Join(names, ", ") + w) + rest == Literal(t.Quoted(fs[0].column) + ", ") + after;
      NameThen(t.quote, fs[0].column, ", ", after);
      Word(", ", after);
    }
  }

  lemma OrderKeyReads(t: Table, k: OrderKey, rest: seq<Bound>)
    requires IsQuote(t.quote)
    ensures ReadOrderKey(Literal(OrderKeyText(t, k)) + rest, t.quote) == Got(k, rest)
  {
    hide Says, Literal, QuoteIdent, ReadName;
    var q, name := t.quote, t.Quoted(k.col);
    var m := Literal(OrderKeyText(t, k)) + rest;
    match k
    case NullFlag(col) =>
      var w := " IS NULL) ASC";
      assert OrderKeyText(t, k) == "(" + (name + w);
      LiteralOfConcat("(", name + w);
      var inner := Literal(name + w) + rest;
      assert m == Literal("(") + inner;
      Word("(", inner);
      NameThen(q, col, w, rest);
      Word(w, rest);
    case Column(col, desc) =>
      var w := if desc then " DESC" else " ASC";
      NameThen(q, col, w, rest);
      StartsWithName(m, q);
      Word(w, rest);
      if desc { OtherWord(w, rest, " ASC", 1); }
  }

  /** The ORDER BY list reads as its keys, in order and direction. */
  lemma {:induction false} OrderReads(t: Table, keys: seq<OrderKey>, w: string, rest: seq<Bound>)
    requires IsQuote(t.quote) && keys != [] && w != "" && w[0] == ' '
    ensures ReadOrder(Literal(Join(OrderTexts(t, keys), ", ") + w) + rest, t.quote) == Got(keys, Literal(w) + rest)
    decreases |keys|
  {
    hide Says, Literal, OrderKeyText, ReadOrderKey;
    var texts := OrderTexts(t, keys);
    assert texts[1..] == OrderTexts(t, keys[1..]);
    var first := OrderKeyText(t, keys[0]);
    if |keys| == 1 {
      assert keys[1..] == [] && texts == [first] && keys == [keys[0]];
      LiteralOfConcat(first, w);
      OrderKeyReads(t, keys[0], Literal(w) + rest);
      assert Literal(first + w) + rest == Literal(first) + (Literal(w) + rest);
      OtherWord(w, rest, ", ", 0);
    } else {
      var tail := Join(texts[1..], ", ") + w;
      OrderReads(t, keys[1..], w, rest);
      assert |texts| > 1 by { assert |OrderTexts(t, keys[1..])| > 0; }
      assert Join(texts, ", ") + w == first + (", " + tail);
      LiteralOfConcat(first, ", " + tail);
      LiteralOfConcat(", ", tail);
      var after := Literal(tail) + rest;
      OrderKeyReads(t, keys[0], Literal(", ") + after);
      assert Literal(Join(texts, ", ") + w) + rest == Literal(first) + (Literal(", ") + after);
      Word(", ", after);
      assert [keys[0]] + keys[1..] == keys;
    }
  }

  // ---- the conditions of a listing ----

  /** How the row-access fragment, which the configuration writes, reads as a term. */
  ghost predicate FragmentReads(q: char, row: RowFilter, fragment: Expr) {
    row.sql != "" ==> IsTerm(q, FragmentMeaning(row), fragment)
  }

  function FilterExprs(t: Table, fs: seq<Filter>): (es: seq<Expr>)
    requires FiltersOk(t, fs)
    ensures |es| == |fs|
    ensures forall i :: 0 <= i < |fs| ==>
        fs[i] in fs && es[i] == FilterExpr(t, fs[i], t.entity.FindField(fs[i].column).value.column)
  {
    if fs == [] then []
    else
      assert fs[|fs| - 1] in fs;
      FilterExprs(t, fs[..|fs| - 1])
      + [FilterExpr(t, fs[|fs| - 1], t.entity.FindField(fs[|fs| - 1].column).value.column)]
  }

  lemma {:induction false} FiltersRead(t: Table, fs: seq<Filter>)
    requires IsQuote(t.quote) && FiltersOk(t, fs)
    ensures AreTerms(t.quote, FilterMeanings(t, fs), FilterExprs(t, fs))
    decreases |fs|
  {
    hide IsTerm, FilterMeaning, FilterExpr, KnownOp;
    if fs != [] {
      var f := fs[|fs| - 1];
      FiltersRead(t, fs[..|fs| - 1]);
      assert f in fs;
      FilterReads(t, f, t.entity.FindField(f.column).value.column);
    }
  }

  /** Filters, soft delete, row access and search as expressions. */
  function BaseExprs(t: Table, q: ListQuery, fragment: Expr): seq<Expr>
    requires FiltersOk(t, q.filters)
  {
    FilterExprs(t, q.filters)
    + (if t.softDelete then [NullTest("deleted_at", true)] else [])
    + (if q.row.sql != "" then [fragment] else [])
    + (if SearchMeaning(t, q.search) != [] && SearchExprs(t, q.search, |q.search.columns|) != []
       then [Disj(SearchExprs(t, q.search, |q.search.columns|))] else [])
  }

  /** With the keyset condition of the cursor. */
  function AllExprs(t: Table, q: ListQuery, s: Keyset.Sort, fragment: Expr): seq<Expr>
    requires FiltersOk(t, q.filters)
  {
    BaseExprs(t, q, fragment) + if q.cursor.Some? then [CursorExpr(t, s, q.cursor.value)] else []
  }

  function CursorExpr(t: Table, s: Keyset.Sort, c: Keyset.Cursor): Expr {
    CondExpr(Keyset.KeysetCond(t.entity, s, c, 0), Keyset.KeysetArgs(t.entity, s, c))
  }

  /** What a listing asks of a row, cursor aside. */
  ghost predicate Wanted(db: Database, t: Table, q: ListQuery, fragment: Expr, row: Row)
    requires FiltersOk(t, q.filters)
  {
    && (forall i :: 0 <= i < |q.filters| ==> FilterAsks(db, t, q.filters, i, row))
    && (t.softDelete ==> Get(row, "deleted_at") == Null)
    && (q.row.sql != "" ==> Evaluate(db, fragment, row) == Yes)
    && (Searches(t, q.search) ==> Found(db, t, q.search, row))
  }

  ghost predicate FilterAsks(db: Database, t: Table, fs: seq<Filter>, i: nat, row: Row)
    requires FiltersOk(t, fs) && i < |fs|
  {
    assert fs[i] in fs;
    var col := t.entity.FindField(fs[i].column).value.column;
    Chosen(db, t.lower, fs[i], col, Get(row, col))
  }

  lemma AppendTerm(q: char, ms: seq<seq<Bound>>, es: seq<Expr>, m: seq<Bound>, e: Expr)
    requires AreTerms(q, ms, es) && IsTerm(q, m, e)
    ensures AreTerms(q, ms + [m], es + [e])
  {
    hide IsTerm;
  }

  ghost predicate AllTrue(db: Database, es: seq<Expr>, row: Row) {
    forall i :: 0 <= i < |es| ==> Evaluate(db, es[i], row) == Yes
  }

  lemma AppendTrue(db: Database, es: seq<Expr>, e: Expr, row: Row)
    ensures AllTrue(db, es + [e], row) <==> AllTrue(db, es, row) && Evaluate(db, e, row) == Yes
  {
    hide Evaluate;
    var all := es + [e];
    assert all[|es|] == e && forall i :: 0 <= i < |es| ==> all[i] == es[i];
  }

  lemma FiltersTrue(db: Database, t: Table, fs: seq<Filter>, row: Row)
    requires FiltersOk(t, fs)
    ensures AllTrue(db, FilterExprs(t, fs), row) <==> forall i :: 0 <= i < |fs| ==> FilterAsks(db, t, fs, i, row)
  {
    hide FilterExpr, Evaluate, Chosen, KnownOp, FilterExprs;
    var es := FilterExprs(t, fs);
    forall i | 0 <= i < |fs| ensures Evaluate(db, es[i], row) == Yes <==> FilterAsks(db, t, fs, i, row) {
      assert fs[i] in fs;
      FilterEvaluates(db, t, fs[i], t.entity.FindField(fs[i].column).value.column, row);
    }
  }

  lemma BaseReads(t: Table, q: ListQuery, fragment: Expr)
    requires IsQuote(t.quote) && FiltersOk(t, q.filters) && FragmentReads(t.quote, q.row, fragment)
    ensures AreTerms(t.quote,
        FilterMeanings(t, q.filters) + GuardMeanings(t, q.row) + Optional(SearchMeaning(t, q.search)),
                     BaseExprs(t, q, fragment))
  {
    hide IsTerm, FilterMeanings, SearchMeaning, Literal, QuoteIdent, FragmentMeaning, AreTerms, FilterExprs,
        SearchExprs;
    FiltersRead(t, q.filters);
    var ms, es := FilterMeanings(t, q.filters), FilterExprs(t, q.filters);
    if t.softDelete {
      NullTerm(t.quote, "deleted_at", true);
      AppendTerm(t.quote, ms, es, Literal(t.Quoted("deleted_at") + " IS NULL"), NullTest("deleted_at", true));
      ms, es := ms + [Literal(t.Quoted("deleted_at") + " IS NULL")], es + [NullTest("deleted_at", true)];
    }
    if q.row.sql != "" {
      AppendTerm(t.quote, ms, es, FragmentMeaning(q.row), fragment);
      ms, es := ms + [FragmentMeaning(q.row)], es + [fragment];
    }
    assert ms == FilterMeanings(t, q.filters) + GuardMeanings(t, q.row);
    if SearchMeaning(t, q.search) != [] {
      SearchTerm(t, q.search);
      var e := Disj(SearchExprs(t, q.search, |q.search.columns|));
      AppendTerm(t.quote, ms, es, SearchMeaning(t, q.search), e);
      ms, es := ms + [SearchMeaning(t, q.search)], es + [e];
    }
    assert ms == FilterMeanings(t, q.filters) + GuardMeanings(t, q.row) + Optional(SearchMeaning(t, q.search));
    assert es == BaseExprs(t, q, fragment);
  }

  lemma BaseTrue(db: Database, t: Table, q: ListQuery, fragment: Expr, row: Row)
    requires IsQuote(t.quote) && FiltersOk(t, q.filters)
    ensures AllTrue(db, BaseExprs(t, q, fragment), row) <==> Wanted(db, t, q, fragment, row)
  {
    hide Evaluate, SearchMeaning, Found, AllTrue, FilterAsks, FilterExprs, SearchExprs, FiltersOk, ReadTerm, Searches;
    FiltersTrue(db, t, q.filters, row);
    SearchIsAsked(t, q.search);
    var es := FilterExprs(t, q.filters);
    if t.softDelete {
      AppendTrue(db, es, NullTest("deleted_at", true), row);
      NullTestTrue(db, "deleted_at", row);
      es := es + [NullTest("deleted_at", true)];
    }
    if q.row.sql != "" {
      AppendTrue(db, es, fragment, row);
      es := es + [fragment];
    }
    if SearchMeaning(t, q.search) != [] {
      SearchTerm(t, q.search);
      SearchSelects(db, t, q.search, row);
      var e := Disj(SearchExprs(t, q.search, |q.search.columns|));
      AppendTrue(db, es, e, row);
      es := es + [e];
    }
    assert es == BaseExprs(t, q, fragment);
  }

  lemma NullTestTrue(db: Database, col: string, row: Row)
    ensures Evaluate(db, NullTest(col, true), row) == Yes <==> Get(row, col) == Null
  {
  }

  lemma AllRead(t: Table, q: ListQuery, s: Keyset.Sort, fragment: Expr)
    requires IsQuote(t.quote) && FiltersOk(t, q.filters) && FragmentReads(t.quote, q.row, fragment)
    ensures AreTerms(t.quote, ListConditions(t, q, s), AllExprs(t, q, s, fragment))
  {
    hide IsTerm, FilterMeanings, SearchMeaning, AreTerms, BaseExprs, CondMeaning, CondExpr, GuardMeanings,
        FragmentReads;
    BaseReads(t, q, fragment);
    if q.cursor.Some? {
      var c := q.cursor.value;
      CondReads(t, Keyset.KeysetCond(t.entity, s, c, 0), Keyset.KeysetArgs(t.entity, s, c));
      AppendTerm(t.quote, FilterMeanings(t, q.filters) + GuardMeanings(t, q.row) + Optional(SearchMeaning(t, q.search)),
                 BaseExprs(t, q, fragment), CursorMeaning(t, s, c), CursorExpr(t, s, c));
    } else {
      assert ListConditions(t, q, s)
          == FilterMeanings(t, q.filters) + GuardMeanings(t, q.row) + Optional(SearchMeaning(t, q.search));
      assert AllExprs(t, q, s, fragment) == BaseExprs(t, q, fragment);
    }
  }

  // ---- the whole statement ----

  function ListSelect(t: Table, q: ListQuery, s: Keyset.Sort, fragment: Expr): Select
    requires FiltersOk(t, q.filters)
  {
    var es := AllExprs(t, q, s, fragment);
    Select(
      ColumnsOf(t.entity.fields), t.name,
      if es == [] then None else Some(Conj(es)),
      Keyset.OrderBy(t.entity, s),
      Some(Int(if q.limit > 0 then q.limit else 20)),
      if q.cursor.None? && q.offset > 0 then Some(Int(q.offset)) else None)
  }

  lemma WhereReads(q: char, ms: seq<seq<Bound>>, es: seq<Expr>, rest: seq<Bound>)
    requires AreTerms(q, ms, es) && !Says(rest, " AND ") && !Says(rest, " WHERE ")
    ensures ReadWhere(WhereMeaning(ms) + rest, q) == Got(if es == [] then None else Some(Conj(es)), rest)
  {
    hide Says, Literal, JoinMeaning, IsTerm, ReadAnd;
    if ms == [] {
      assert [] + rest == rest;
    } else {
      ConjReads(q, ms, es, rest);
      var tail := JoinMeaning(ms, " AND ") + rest;
      Word(" WHERE ", tail);
      assert WhereMeaning(ms) + rest == Literal(" WHERE ") + tail;
    }
  }

  lemma TailReads(v: Value, offset: Option<Value>)
    ensures var m := Literal(" LIMIT ") + ([Arg(v)] + if offset.Some? then Literal(" OFFSET ") + [Arg(offset.value)]
        else []);
      var limit := ReadOption(m, " LIMIT ");
      && limit.Got? && limit.value == Some(v)
      && ReadOption(limit.rest, " OFFSET ") == Got(offset, [])
  {
    hide Says, Literal;
    var end := if offset.Some? then Literal(" OFFSET ") + [Arg(offset.value)] else [];
    Word(" LIMIT ", [Arg(v)] + end);
    assert ([Arg(v)] + end)[1..] == end;
    if offset.Some? {
      Word(" OFFSET ", [Arg(offset.value)]);
    } else {
      NothingSaid(" OFFSET ");
    }
  }

  lemma NothingSaid(w: string)
    requires w != ""
    ensures !Says([], w)
  {
  }

  /** The text that List executes reads as this SELECT: the entity's columns, every condition, the
      order, the limit asked for (or 20), and the offset unless there is a cursor. */
  lemma ListReads(t: Table, q: ListQuery, s: Keyset.Sort, fragment: Expr)
    requires IsQuote(t.quote) && t.entity.fields != [] && FiltersOk(t, q.filters) &&
        FragmentReads(t.quote, q.row, fragment)
    ensures ReadSelect(ListMeaning(t, q, s), t.quote) == Some(ListSelect(t, q, s, fragment))
  {
    hide Says, Literal, ReadNames, ReadName, ReadWhere, ReadOrder, ReadOption, QuoteIdent, ListConditions, AllExprs,
        Join,
         AreTerms, WhereMeaning, FragmentReads, Conj;
    var v := Int(if q.limit > 0 then q.limit else 20);
    var offset := if q.cursor.None? && q.offset > 0 then Some(Int(q.offset)) else None;
    var end := [Arg(v)] + if offset.Some? then Literal(" OFFSET ") + [Arg(offset.value)] else [];
    var afterOrder := Literal(" LIMIT ") + end;
    var order := Literal(" ORDER BY " + OrderText(t, s) + " LIMIT ") + end;
    var where := WhereMeaning(ListConditions(t, q, s)) + order;
    TailReads(v, offset);
    OrderPart(t, s, end);
    AllRead(t, q, s, fragment);
    WhereReads(t.quote, ListConditions(t, q, s), AllExprs(t, q, s, fragment), order);
    assert ReadConditions(ColumnsOf(t.entity.fields), t.name, where, t.quote) == Some(ListSelect(t, q, s, fragment));
    WhereStart(t, ListConditions(t, q, s), " ORDER BY " + OrderText(t, s) + " LIMIT ", end);
    HeadReads(t, where);
    assert ListMeaning(t, q, s) == Literal(SelectHead(t)) + where;
  }

  /** ORDER BY and its keys. */
  lemma OrderPart(t: Table, s: Keyset.Sort, end: seq<Bound>)
    requires IsQuote(t.quote)
    ensures var m := Literal(" ORDER BY " + OrderText(t, s) + " LIMIT ") + end;
      && Says(m, " ORDER BY ") && !Says(m, " AND ") && !Says(m, " WHERE ")
      && ReadOrder(m[10..], t.quote) == Got(Keyset.OrderBy(t.entity, s), Literal(" LIMIT ") + end)
  {
    hide Says, Literal, ReadOrder, Join, QuoteIdent;
    var text := OrderText(t, s) + " LIMIT ";
    var tail := Literal(text) + end;
    assert " ORDER BY " + OrderText(t, s) + " LIMIT " == " ORDER BY " + text;
    LiteralOfConcat(" ORDER BY ", text);
    assert Literal(" ORDER BY " + text) + end == Literal(" ORDER BY ") + tail;
    Word(" ORDER BY ", tail);
    OtherWord(" ORDER BY ", tail, " AND ", 1);
    OtherWord(" ORDER BY ", tail, " WHERE ", 1);
    OrderReads(t, Keyset.OrderBy(t.entity, s), " LIMIT ", end);
  }

  lemma WhereStart(t: Table, ms: seq<seq<Bound>>, order: string, end: seq<Bound>)
    requires order != "" && order[0] == ' '
    ensures var m := WhereMeaning(ms) + (Literal(order) + end); m != [] && m[0] == Char(' ')
  {
    hide JoinMeaning;
    LiteralChars(order);
    LiteralChars(" WHERE ");
  }

  /** SELECT columns FROM table */
  lemma HeadReads(t: Table, m: seq<Bound>)
    requires IsQuote(t.quote) && t.entity.fields != [] && (m == [] || m[0] != Char(t.quote))
    ensures ReadSelect(Literal(SelectHead(t)) + m, t.quote)
        == ReadConditions(ColumnsOf(t.entity.fields), t.name, m, t.quote)
  {
    hide Says, Literal, ReadNames, ReadName, ReadConditions, QuoteIdent, Join;
    var columns, name := SelectColumns(t), t.Quoted(t.name);
    var afterFrom := Literal(name) + m;
    var afterColumns := Literal(" FROM ") + afterFrom;
    assert SelectHead(t) == "SELECT " + (columns + " FROM " + name);
    LiteralOfConcat("SELECT ", columns + " FROM " + name);
    LiteralOfConcat(columns + " FROM ", name);
    var body := Literal(columns + " FROM ") + afterFrom;
    assert Literal(SelectHead(t)) + m == Literal("SELECT ") + body;
    Word("SELECT ", body);
    NamesReadOn(t, t.entity.fields, " FROM ", afterFrom);
    Word(" FROM ", afterFrom);
    NameReads(t.quote, t.name, m);
  }

  // ---- the rows ----

  /** What the listing answers with: a row passes exactly when it is wanted and, with a cursor,
      strictly after it. */
  lemma ListSelects(db: Database, t: Table, q: ListQuery, s: Keyset.Sort, fragment: Expr, row: Row)
    requires IsQuote(t.quote) && t.entity.fields != [] && FiltersOk(t, q.filters) &&
        FragmentReads(t.quote, q.row, fragment)
    requires t.entity.Stored(row, s.column) && (q.cursor.Some? ==> q.cursor.value.id != Null)
    ensures var sel := ReadSelect(ListMeaning(t, q, s), t.quote);
      && sel.Some?
      && (Passes(db, sel.value, row) <==>
          && Wanted(db, t, q, fragment, row)
          && (q.cursor.Some? ==>
              Keyset.Before(db.coll, t.entity, s, Keyset.Position(q.cursor.value.value, q.cursor.value.id),
                            Keyset.PositionOf(t.entity, s, row))))
  {
    hide ReadSelect, ListMeaning, FragmentReads, Wanted, Keyset.Before;
    ListReads(t, q, s, fragment);
    PassesByCursor(db, t, q, s, fragment, row);
    if q.cursor.Some? {
      Keyset.KeysetIsAfter(db.coll, t.entity, s, q.cursor.value, row, []);
      assert [] + Keyset.KeysetArgs(t.entity, s, q.cursor.value) == Keyset.KeysetArgs(t.entity, s, q.cursor.value);
    }
  }

  lemma PassesByCursor(db: Database, t: Table, q: ListQuery, s: Keyset.Sort, fragment: Expr, row: Row)
    requires IsQuote(t.quote) && FiltersOk(t, q.filters)
    ensures Passes(db, ListSelect(t, q, s, fragment), row) <==>
      && Wanted(db, t, q, fragment, row)
      && (q.cursor.Some? ==>
          Eval(db.coll, Keyset.KeysetCond(t.entity, s, q.cursor.value, 0), row,
              Keyset.KeysetArgs(t.entity, s, q.cursor.value)) == Yes)
  {
    hide Evaluate, Wanted, BaseExprs, CondExpr, Eval;
    BaseTrue(db, t, q, fragment, row);
    var base, es := BaseExprs(t, q, fragment), AllExprs(t, q, s, fragment);
    if es != [] { ConjIsAll(db, es, row); }
    if q.cursor.Some? {
      var c := q.cursor.value;
      AppendTrue(db, base, CursorExpr(t, s, c), row);
      CondEvaluates(db, Keyset.KeysetCond(t.entity, s, c, 0), Keyset.KeysetArgs(t.entity, s, c), row);
    } else {
      assert es == base;
    }
  }

  // ---- against the pages ----

  lemma {:induction false} SortsAlike(db: Database, l: Paging.Listing, sel: Select, rows: seq<Row>)
    requires sel.order == Keyset.OrderBy(l.entity, l.sort) && db.coll == l.coll && db.nulls == l.nulls
    ensures Sorted(db, sel, rows) == Paging.SortRows(l, rows)
  {
    if rows != [] {
      SortsAlike(db, l, sel, rows[1..]);
      PlacesAlike(db, l, sel, rows[0], Sorted(db, sel, rows[1..]));
    }
  }

  lemma {:induction false} PlacesAlike(db: Database, l: Paging.Listing, sel: Select, row: Row, sorted: seq<Row>)
    requires sel.order == Keyset.OrderBy(l.entity, l.sort) && db.coll == l.coll && db.nulls == l.nulls
    ensures Placed(db, sel, row, sorted) == Paging.Insert(l, row, sorted)
  {
    hide OrderedBefore;
    if sorted != [] { PlacesAlike(db, l, sel, row, sorted[1..]); }
  }

  lemma {:induction false} PassesAlike(db: Database, l: Paging.Listing, sel: Select, cursor: Option<Keyset.Cursor>,
                                       rows: seq<Row>)
    requires forall row <- rows :: Passes(db, sel, row) <==> Paging.Selected(l, cursor, row)
    ensures Passing(db, sel, rows) == Paging.Matching(l, cursor, rows)
  {
    hide Passes, Paging.Selected;
    if rows != [] {
      assert rows[0] in rows;
      PassesAlike(db, l, sel, cursor, rows[1..]);
    }
  }

  /** The text of the listing, read and run by the database on any table, answers with exactly the
      rows of the page that Paging speaks of. */
  lemma ListAnswersPage(db: Database, t: Table, q: ListQuery, s: Keyset.Sort, fragment: Expr, l: Paging.Listing,
                        rows: seq<Row>)
    requires IsQuote(t.quote) && t.entity.fields != [] && FiltersOk(t, q.filters) &&
        FragmentReads(t.quote, q.row, fragment)
    requires q.cursor.Some? ==> q.cursor.value.sort == s.column && q.cursor.value.desc == s.desc
    requires q.cursor.Some? || q.offset <= 0
    requires l.entity == t.entity && l.sort == s && l.coll == db.coll && l.nulls == db.nulls && l.prior == []
    requires forall row: Row :: l.filter(row) == Yes <==> Wanted(db, t, q, fragment, row)
    ensures var sel := ReadSelect(ListMeaning(t, q, s), t.quote);
      sel.Some? && Paging.ListRows(l, q.cursor, q.limit, rows) == Ok(Answer(db, sel.value, rows))
  {
    hide ReadSelect, ListMeaning, FragmentReads, Wanted, Passes, Eval, AllExprs, FiltersOk;
    ListReads(t, q, s, fragment);
    var sel := ListSelect(t, q, s, fragment);
    forall row | row in rows ensures Passes(db, sel, row) <==> Paging.Selected(l, q.cursor, row) {
      PassesByCursor(db, t, q, s, fragment, row);
      if q.cursor.Some? {
        assert [] + Keyset.KeysetArgs(t.entity, s, q.cursor.value) == Keyset.KeysetArgs(t.entity, s, q.cursor.value);
      }
    }
    PassesAlike(db, l, sel, q.cursor, rows);
    SortsAlike(db, l, sel, Passing(db, sel, rows));
    var sorted := Paging.SortRows(l, Paging.Matching(l, q.cursor, rows));
    assert sorted[0..] == sorted;
    assert sorted[..|sorted|] == sorted;
  }
}
