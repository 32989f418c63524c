/** The batches of relation loading (internal/query/relations.go), read out of their text. */
module JoinReader {
  import opened SqlLogic
  import opened Strings
  import opened Placeholders
  import opened Rendering
  import opened QueryText
  import opened QueryBuilder
  import opened SqlReader
  import opened QuerySemantics
  import opened WriteReader
  import ListAnswer
  import Keyset

  // ---- one table ----

  function FetchMeaning(t: Table, col: string, keys: seq<Value>): seq<Bound> {
    Literal(SelectHead(t) + " WHERE " + t.Quoted(col) + " IN (")
    + JoinMeaning(ArgList(keys), ", ")
    + Literal(")" + if t.softDelete then " AND " + t.Quoted("deleted_at") + " IS NULL" else "")
  }

  function FetchExprs(t: Table, col: string, keys: seq<Value>): seq<Expr> {
    [Member(col, true, keys)] + if t.softDelete then [NullTest("deleted_at", true)] else []
  }

  /** A batch reads as the rows whose column is one of the keys, soft-deleted ones left out. */
  lemma FetchReads(t: Table, col: string, keys: seq<Value>)
    requires IsQuote(t.quote) && t.entity.fields != [] && keys != []
    ensures ReadSelect(FetchMeaning(t, col, keys), t.quote)
      == Some(Select(ListAnswer.ColumnsOf(t.entity.fields), t.name, Some(Conj(FetchExprs(t, col, keys))), [], None,
          None))
  {
    hide Says, Literal, QuoteIdent, JoinMeaning, ReadName, ReadNames, ReadWhere, IsTerm, SelectHead, Conj;
    var q, list := t.quote, JoinMeaning(ArgList(keys), ", ");
    var member := Literal(t.Quoted(col) + " IN (") + list + Literal(")");
    var live := Literal(t.Quoted("deleted_at") + " IS NULL");
    var ms := [member] + if t.softDelete then [live] else [];
    MembersTerm(q, col, true, keys);
    NullTerm(q, "deleted_at", true);
    assert AreTerms(q, ms, FetchExprs(t, col, keys));
    NothingSaid(" AND ");
    NothingSaid(" WHERE ");
    NothingSaid(" ORDER BY ");
    NothingSaid(" LIMIT ");
    NothingSaid(" OFFSET ");
    ListAnswer.WhereReads(q, ms, FetchExprs(t, col, keys), []);
    assert WhereMeaning(ms) + [] == WhereMeaning(ms);
    ConditionsText(t, col, keys, ms);
    WhereBegins(ms);
    ListAnswer.HeadReads(t, WhereMeaning(ms));
  }

  lemma WhereBegins(ms: seq<seq<Bound>>)
    requires ms != []
    ensures WhereMeaning(ms) != [] && WhereMeaning(ms)[0] == Char(' ')
  {
    hide JoinMeaning;
    LiteralChars(" WHERE ");
  }

  lemma ConditionsText(t: Table, col: string, keys: seq<Value>, ms: seq<seq<Bound>>)
    requires ms == [Literal(t.Quoted(col) + " IN (") + JoinMeaning(ArgList(keys), ", ") + Literal(")")]
      + if t.softDelete then [Literal(t.Quoted("deleted_at") + " IS NULL")] else []
    ensures FetchMeaning(t, col, keys) == Literal(SelectHead(t)) + WhereMeaning(ms)
  {
    hide Literal, QuoteIdent, SelectHead, JoinMeaning;
    var list, head, name := JoinMeaning(ArgList(keys), ", "), SelectHead(t), t.Quoted(col);
    HeadParts(head, name);
    LiveParts(t.Quoted("deleted_at") + " IS NULL");
    OneOrTwo(ms);
    assert t.softDelete ==>
        ")" + (" AND " + t.Quoted("deleted_at") + " IS NULL")
        == ")" + (" AND " + (t.Quoted("deleted_at") + " IS NULL"));
  }

  lemma HeadParts(head: string, name: string)
    ensures Literal(head + " WHERE " + name + " IN (") == Literal(head) + (Literal(" WHERE ") + Literal(name + " IN ("))
  {
    hide Literal;
    assert head + " WHERE " + name + " IN (" == head + (" WHERE " + (name + " IN ("));
    LiteralOfConcat(head, " WHERE " + (name + " IN ("));
    LiteralOfConcat(" WHERE ", name + " IN (");
  }

  lemma LiveParts(live: string)
    ensures Literal(")" + (" AND " + live)) == Literal(")") + (Literal(" AND ") + Literal(live))
    ensures ")" + "" == ")"
  {
    hide Literal;
    LiteralOfConcat(")", " AND " + live);
    LiteralOfConcat(" AND ", live);
  }

  lemma OneOrTwo(ms: seq<seq<Bound>>)
    ensures |ms| == 1 ==> JoinMeaning(ms, " AND ") == ms[0]
    ensures |ms| == 2 ==> JoinMeaning(ms, " AND ") == ms[0] + Literal(" AND ") + ms[1]
  {
    hide Literal;
  }

  // ---- a junction table ----

  /** SELECT o.columns, j.parent AS parentAs FROM table o JOIN through j ON j.link = o.own
      WHERE j.key IN (keys) [AND o.live IS NULL] */
  datatype JoinSelect = JoinSelect(
    columns: seq<string>,
    parent: string,
    parentAs: string,
    table: string,
    through: string,
    link: string,
    own: string,
    key: string,
    keys: seq<Value>,
    live: Option<string>)

  datatype Selection = Selection(columns: seq<string>, parent: string, parentAs: string)

  function ReadSelection(m: seq<Bound>, q: char): (r: Read<Selection>)
    ensures r.Got? ==> |r.rest| < |m|
    decreases |m|
  {
    if Says(m, "j.") then
      var parent := ReadWordName(m, "j.", q);
      if parent.Fail? then Fail
      else
        var name := ReadWordName(parent.rest, " AS ", q);
        if name.Got? then Got(Selection([], parent.value, name.value), name.rest) else Fail
    else
      var col := ReadWordName(m, "o.", q);
      if col.Fail? || !Says(col.rest, ", ") then Fail
      else
        var r := ReadSelection(col.rest[2..], q);
        if r.Got? then Got(r.value.(columns := [col.value] + r.value.columns), r.rest) else Fail
  }

  function ReadLive(m: seq<Bound>, q: char): Option<Option<string>> {
    if m == [] then Some(None)
    else
      var live := ReadWordName(m, " AND o.", q);
      if live.Got? && Says(live.rest, " IS NULL") && live.rest[8..] == [] then Some(Some(live.value)) else None
  }

  function ReadJoin(m: seq<Bound>, q: char): Option<JoinSelect> {
    if !Says(m, "SELECT ") then None
    else
      var s := ReadSelection(m[7..], q);
      if s.Fail? then None else ReadTables(s.value, s.rest, q)
  }

  function ReadTables(s: Selection, m: seq<Bound>, q: char): Option<JoinSelect> {
    var table := ReadWordName(m, " FROM ", q);
    if table.Fail? then None
    else
      var through := ReadWordName(table.rest, " o JOIN ", q);
      if through.Fail? then None
      else
        var link := ReadWordName(through.rest, " j ON j.", q);
        if link.Fail? then None
        else
          var own := ReadWordName(link.rest, " = o.", q);
          if own.Fail? then None
          else
            var key := ReadWordName(own.rest, " WHERE j.", q);
            if key.Fail? || !Says(key.rest, " IN (") then None
            else
              var keys := ReadValues(key.rest[5..]);
              if keys.Fail? then None
              else
                var live := ReadLive(keys.rest, q);
                if live.None? then None
                else
                  Some(JoinSelect(s.columns, s.parent, s.parentAs, table.value, through.value, link.value, own.value,
                                  key.value, keys.value, live.value))
  }

  /** The text after the selected columns. */
  function TablesText(t: Table, through: string, fk: string, other: string): string {
    " FROM " + t.Quoted(t.name) + (" o JOIN " + t.Quoted(through) + (" j ON j." + t.Quoted(other) + (
      " = o." + t.Quoted(t.entity.PrimaryColumn()) + (" WHERE j." + t.Quoted(fk) + " IN ("))))
  }

  lemma HeadText(t: Table, through: string, fk: string, other: string)
    ensures JoinHead(t, through, fk, other) == "SELECT " + (JoinSelection(t, fk) + TablesText(t, through, fk, other))
  {
    hide QuoteIdent, JoinSelection;
  }

  lemma TablesRead(t: Table, s: Selection, through: string, fk: string, other: string, keys: seq<Value>,
                   live: Option<string>,
                   end: seq<Bound>)
    requires IsQuote(t.quote) && keys != [] && ReadLive(end, t.quote) == Some(live)
    ensures var list := JoinMeaning(ArgList(keys), ", ") + (Literal(")") + end);
      ReadTables(s, Literal(TablesText(t, through, fk, other)) + list, t.quote)
      == Some(JoinSelect(s.columns, s.parent, s.parentAs, t.name, through, other, t.entity.PrimaryColumn(), fk, keys,
          live))
  {
    hide Says, Literal, QuoteIdent, ReadWordName, ReadValues, ReadLive, JoinMeaning;
    var list := JoinMeaning(ArgList(keys), ", ") + (Literal(")") + end);
    var q, pk := t.quote, t.entity.PrimaryColumn();
    var w5 := " IN (";
    var w4 := " WHERE j." + t.Quoted(fk) + w5;
    var w3 := " = o." + t.Quoted(pk) + w4;
    var w2 := " j ON j." + t.Quoted(other) + w3;
    var w1 := " o JOIN " + t.Quoted(through) + w2;
    assert w1[0] == w2[0] == w3[0] == w4[0] == w5[0] == ' ';
    WordNameReads(q, " FROM ", t.name, w1, list);
    WordNameReads(q, " o JOIN ", through, w2, list);
    WordNameReads(q, " j ON j.", other, w3, list);
    WordNameReads(q, " = o.", pk, w4, list);
    WordNameReads(q, " WHERE j.", fk, w5, list);
    Word(w5, list);
    ValuesRead(keys, end);
  }

  lemma LiveReads(t: Table)
    requires IsQuote(t.quote)
    ensures ReadLive([], t.quote) == Some(None)
    ensures ReadLive(Literal(" AND " + Qualified("o.", t, "deleted_at") + " IS NULL"), t.quote)
        == Some(Some("deleted_at"))
  {
    hide Says, Literal, QuoteIdent, ReadName;
    var text := " AND " + Qualified("o.", t, "deleted_at") + " IS NULL";
    assert text == " AND o." + t.Quoted("deleted_at") + " IS NULL";
    WordNameReads(t.quote, " AND o.", "deleted_at", " IS NULL", []);
    Word(" IS NULL", []);
    assert Literal(text) + [] == Literal(text);
    LiteralChars(text);
    LiteralChars(" IS NULL");
    assert Literal(" IS NULL") + [] == Literal(" IS NULL");
  }

  lemma ParentReads(t: Table, fk: string, w: string, rest: seq<Bound>)
    requires IsQuote(t.quote) && w != "" && w[0] == ' '
    ensures ReadSelection(Literal("j." + t.Quoted(fk) + " AS " + t.Quoted(PARENT_KEY) + w) + rest, t.quote)
      == Got(Selection([], fk, "__yaypi_parent"), Literal(w) + rest)
  {
    hide Says, Literal, QuoteIdent, ReadWordName;
    var tail := " AS " + t.Quoted(PARENT_KEY) + w;
    assert "j." + t.Quoted(fk) + " AS " + t.Quoted(PARENT_KEY) + w == "j." + t.Quoted(fk) + tail;
    WordNameReads(t.quote, "j.", fk, tail, rest);
    WordNameReads(t.quote, " AS ", PARENT_KEY, w, rest);
    assert "j." + t.Quoted(fk) + tail == "j." + (t.Quoted(fk) + tail);
    LiteralOfConcat("j.", t.Quoted(fk) + tail);
    Word("j.", Literal(t.Quoted(fk) + tail) + rest);
    assert Literal("j." + (t.Quoted(fk) + tail)) + rest == Literal("j.") + (Literal(t.Quoted(fk) + tail) + rest);
  }

  lemma ColumnReads(t: Table, col: string, tail: string, rest: seq<Bound>)
    requires IsQuote(t.quote)
    ensures var m := Literal("o." + t.Quoted(col) + (", " + tail)) + rest;
      && !Says(m, "j.")
      && var r := ReadSelection(Literal(tail) + rest, t.quote);
         ReadSelection(m, t.quote) == if r.Got? then Got(r.value.(columns := [col] + r.value.columns), r.rest) else Fail
  {
    hide Says, Literal, QuoteIdent, ReadName;
    var w := ", " + tail;
    var m := Literal("o." + t.Quoted(col) + w) + rest;
    WordNameReads(t.quote, "o.", col, w, rest);
    LiteralOfConcat(", ", tail);
    assert Literal(w) + rest == Literal(", ") + (Literal(tail) + rest);
    Word(", ", Literal(tail) + rest);
    assert "o." + t.Quoted(col) + w == "o." + (t.Quoted(col) + w);
    LiteralOfConcat("o.", t.Quoted(col) + w);
    OtherWord("o.", Literal(t.Quoted(col) + w) + rest, "j.", 0);
    assert m == Literal("o.") + (Literal(t.Quoted(col) + w) + rest);
  }

  lemma {:induction false} SelectionReads(t: Table, fs: seq<Keyset.Field>, fk: string, w: string, rest: seq<Bound>)
    requires IsQuote(t.quote) && w != "" && w[0] == ' '
    ensures var parts := JoinColumns(t, fs) + [Qualified("j.", t, fk) + " AS " + t.Quoted(PARENT_KEY)];
      ReadSelection(Literal(Join(parts, ", ") + w) + rest, t.quote)
      == Got(Selection(ListAnswer.ColumnsOf(fs), fk, "__yaypi_parent"), Literal(w) + rest)
    decreases |fs|
  {
    hide Says, Literal, QuoteIdent, ReadSelection;
    var last := Qualified("j.", t, fk) + " AS " + t.Quoted(PARENT_KEY);
    var parts := JoinColumns(t, fs) + [last];
    if fs == [] {
      assert parts == [last];
      ParentReads(t, fk, w, rest);
    } else {
      var more := JoinColumns(t, fs[1..]) + [last];
      assert parts == [Qualified("o.", t, fs[0].column)] + more && parts[1..] == more;
      SelectionReads(t, fs[1..], fk, w, rest);
      var tail := Join(more, ", ") + w;
      ColumnReads(t, fs[0].column, tail, rest);
      assert Join(parts, ", ") + w == "o." + t.Quoted(fs[0].column) + (", " + tail);
    }
  }

  /** A batch over a junction table reads as the join that the relation describes: the related
      columns, the owner's key under its internal name, joined where the junction's other key is the
      related row's primary key, for the given owners, soft-deleted rows left out. */
  lemma JoinReads(t: Table, through: string, fk: string, other: string, keys: seq<Value>)
    requires IsQuote(t.quote) && keys != []
    ensures
      var m := Literal(JoinHead(t, through, fk, other)) + JoinMeaning(ArgList(keys), ", ")
        + Literal(")" + if t.softDelete then " AND " + Qualified("o.", t, "deleted_at") + " IS NULL" else "");
      ReadJoin(m, t.quote) == Some(JoinSelect(
        ListAnswer.ColumnsOf(t.entity.fields), fk, "__yaypi_parent", t.name, through, other, t.entity.PrimaryColumn(),
            fk, keys,
        if t.softDelete then Some("deleted_at") else None))
  {
    hide Says, Literal, QuoteIdent, ReadSelection, ReadTables, ReadLive, JoinMeaning, TablesText, Join, JoinHead,
         ReadJoin, JoinSelection;
    var liveText := if t.softDelete then " AND " + Qualified("o.", t, "deleted_at") + " IS NULL" else "";
    var live := if t.softDelete then Some("deleted_at") else None;
    LiveReads(t);
    LiteralChars("");
    LiteralOfConcat(")", liveText);
    var end := Literal(liveText);
    var list := JoinMeaning(ArgList(keys), ", ") + (Literal(")") + end);
    var s := Selection(ListAnswer.ColumnsOf(t.entity.fields), fk, "__yaypi_parent");
    TablesRead(t, s, through, fk, other, keys, live, end);
    TablesStart(t, through, fk, other);
    SelectionStart(t, fk, TablesText(t, through, fk, other), list);
    HeadText(t, through, fk, other);
    JoinSteps(t.quote, JoinSelection(t, fk) + TablesText(t, through, fk, other), list, s,
              Literal(TablesText(t, through, fk, other)) + list);
    assert Literal(JoinHead(t, through, fk, other)) + JoinMeaning(ArgList(keys), ", ") + Literal(")" + liveText)
      == Literal(JoinHead(t, through, fk, other)) + list;
  }

  lemma SelectionStart(t: Table, fk: string, tables: string, list: seq<Bound>)
    requires IsQuote(t.quote) && tables != "" && tables[0] == ' '
    ensures ReadSelection(Literal(JoinSelection(t, fk) + tables) + list, t.quote)
      == Got(Selection(ListAnswer.ColumnsOf(t.entity.fields), fk, "__yaypi_parent"), Literal(tables) + list)
  {
    hide ReadSelection, Literal, Join;
    SelectionReads(t, t.entity.fields, fk, tables, list);
  }

  lemma JoinSteps(q: char, body: string, list: seq<Bound>, s: Selection, rest: seq<Bound>)
    requires ReadSelection(Literal(body) + list, q) == Got(s, rest)
    ensures ReadJoin(Literal("SELECT " + body) + list, q) == ReadTables(s, rest, q)
  {
    hide Says, Literal, ReadSelection, ReadTables;
    LiteralOfConcat("SELECT ", body);
    Word("SELECT ", Literal(body) + list);
    assert Literal("SELECT " + body) + list == Literal("SELECT ") + (Literal(body) + list);
  }

  lemma TablesStart(t: Table, through: string, fk: string, other: string)
    ensures TablesText(t, through, fk, other) != "" && TablesText(t, through, fk, other)[0] == ' '
  {
  }
}
