/** The statements of internal/query that count, insert, update and join, read out of their text. */
module WriteReader {
  import opened SqlLogic
  import opened Strings
  import opened Placeholders
  import opened Rendering
  import opened QueryText
  import opened QueryBuilder
  import opened SqlReader
  import opened QuerySemantics
  import ListAnswer
  import Keyset

  // ---- words between names ----

  /** A word and a quoted name after it. */
  function ReadWordName(m: seq<Bound>, word: string, q: char): (r: Read<string>)
    ensures r.Got? ==> |r.rest| < |m|
  {
    if Says(m, word) then ReadName(m[|word|..], q) else Fail
  }

  lemma WordNameReads(q: char, word: string, name: string, w: string, rest: seq<Bound>)
    requires IsQuote(q) && w != "" && w[0] != q
    ensures ReadWordName(Literal(word + QuoteIdent(q, name) + w) + rest, word, q) == Got(name, Literal(w) + rest)
  {
    hide Says, Literal, QuoteIdent, ReadName;
    assert word + QuoteIdent(q, name) + w == word + (QuoteIdent(q, name) + w);
    LiteralOfConcat(word, QuoteIdent(q, name) + w);
    var inner := Literal(QuoteIdent(q, name) + w) + rest;
    assert Literal(word + (QuoteIdent(q, name) + w)) + rest == Literal(word) + inner;
    Word(word, inner);
    NameThen(q, name, w, rest);
  }

  // ---- COUNT ----

  /** The table and what follows it. */
  function ReadCount(m: seq<Bound>, q: char): Read<string> { ReadWordName(m, "SELECT COUNT(*) FROM ", q) }

  lemma CountReads(t: Table, m: seq<Bound>)
    requires IsQuote(t.quote) && (m == [] || m[0] != Char(t.quote))
    ensures ReadCount(Literal(CountHead(t)) + m, t.quote) == Got(t.name, m)
  {
    hide Says, Literal, QuoteIdent, ReadName;
    var word := "SELECT COUNT(*) FROM ";
    LiteralOfConcat(word, t.Quoted(t.name));
    Word(word, Literal(t.Quoted(t.name)) + m);
    NameReads(t.quote, t.name, m);
    assert Literal(CountHead(t)) + m == Literal(word) + (Literal(t.Quoted(t.name)) + m);
  }

  // ---- RETURNING ----

  function ReadReturning(m: seq<Bound>, q: char): Option<seq<string>> {
    if m == [] then Some([])
    else if Says(m, " RETURNING ") then
      var names := ReadNames(m[11..], q);
      if names.Got? && names.rest == [] then Some(names.value) else None
    else None
  }

  lemma {:induction false} NamesReadToEnd(t: Table, fs: seq<Keyset.Field>)
    requires IsQuote(t.quote) && fs != []
    ensures ReadNames(Literal(Join(ColumnNames(t, fs), ", ")), t.quote) == Got(ListAnswer.ColumnsOf(fs), [])
  {
    hide Says, Literal, QuoteIdent, ReadName;
    var names := ColumnNames(t, fs);
    assert names[1..] == ColumnNames(t, fs[1..]);
    var text := Join(names, ", ");
    if |fs| == 1 {
      assert fs[1..] == [] && names == [names[0]] && ListAnswer.ColumnsOf(fs) == [fs[0].column];
      NameReads(t.quote, fs[0].column, []);
      assert Literal(text) + [] == Literal(text);
      NothingSaid(", ");
    } else {
      var tail := Join(names[1..], ", ");
      NamesReadToEnd(t, fs[1..]);
      assert |names| > 1 by { assert |ColumnNames(t, fs[1..])| > 0; }
      assert text == (t.Quoted(fs[0].column) + ", ") + tail;
      LiteralOfConcat(t.Quoted(fs[0].column) + ", ", tail);
      NameThen(t.quote, fs[0].column, ", ", Literal(tail));
      Word(", ", Literal(tail));
    }
  }

  lemma NothingSaid(w: string)
    requires w != ""
    ensures !Says([], w)
  {
  }

  lemma ReturningReads(t: Table, d: Dialect)
    requires IsQuote(t.quote) && t.entity.fields != []
    ensures ReadReturning(Literal(ReturningText(t, d)), t.quote)
         == Some(if d.returning then ListAnswer.ColumnsOf(t.entity.fields) else [])
    ensures d.returning <==> ReturningText(t, d) != ""
    ensures d.returning ==> ReturningText(t, d)[0] == ' ' && |Literal(ReturningText(t, d))| > 0
    ensures !d.returning ==> Literal(ReturningText(t, d)) == []
  {
    hide Says, Literal, QuoteIdent, ReadNames, Join;
    LiteralChars(ReturningText(t, d));
    if d.returning {
      LiteralOfConcat(" RETURNING ", SelectColumns(t));
      Word(" RETURNING ", Literal(SelectColumns(t)));
      NamesReadToEnd(t, t.entity.fields);
    }
  }

  // ---- INSERT ----

  datatype Insert = Insert(table: string, columns: seq<string>, values: seq<Value>, returning: seq<string>)

  function ReadInsert(m: seq<Bound>, q: char): Option<Insert> {
    var table := ReadWordName(m, "INSERT INTO ", q);
    if table.Fail? || !Says(table.rest, " (") then None
    else
      var columns := ReadNames(table.rest[2..], q);
      if columns.Fail? || !Says(columns.rest, ") VALUES (") then None
      else
        var values := ReadValues(columns.rest[10..]);
        if values.Fail? then None
        else
          var returning := ReadReturning(values.rest, q);
          if returning.None? then None
          else Some(Insert(table.value, columns.value, values.value, returning.value))
  }

  /** The text that Create executes reads as an INSERT of exactly the given fields, in the entity's
      order, each with its own value. */
  lemma CreateReads(t: Table, d: Dialect, data: map<string, Value>)
    requires IsQuote(t.quote) && Given(t, data, |t.entity.fields|) != []
    ensures var given := Given(t, data, |t.entity.fields|);
      ReadInsert(CreateMeaning(t, d, data), t.quote)
      == Some(Insert(t.name, ListAnswer.ColumnsOf(FieldsOf(given)), ValuesOf(given),
                     if d.returning then ListAnswer.ColumnsOf(t.entity.fields) else []))
  {
    hide Says, Literal, QuoteIdent, ReadNames, ReadName, ReadValues, Join, JoinMeaning, Given, ReturningText,
         ReadReturning, ReadWordName, ReadInsert, ColumnNames, InsertHead, CreateMeaning;
    var given := Given(t, data, |t.entity.fields|);
    GivenNeedsFields(t, data);
    var columns, values := FieldsOf(given), ValuesOf(given);
    var text := Join(ColumnNames(t, columns), ", ");
    var end := Literal(ReturningText(t, d));
    var list := JoinMeaning(ArgList(values), ", ") + (Literal(")") + end);
    ReturningReads(t, d);
    ValuesRead(values, end);
    ListAnswer.NamesReadOn(t, columns, ") VALUES (", list);
    InsertSteps(t, text, columns, values, list, end, if d.returning then ListAnswer.ColumnsOf(t.entity.fields) else []);
    InsertText(t, d, data);
  }

  lemma InsertText(t: Table, d: Dialect, data: map<string, Value>)
    ensures var given := Given(t, data, |t.entity.fields|);
      var text := Join(ColumnNames(t, FieldsOf(given)), ", ");
      var end := Literal(ReturningText(t, d));
      CreateMeaning(t, d, data) ==
        Literal("INSERT INTO " + t.Quoted(t.name) + (" (" + (text + ") VALUES (")))
        + (JoinMeaning(ArgList(ValuesOf(given)), ", ") + (Literal(")") + end))
  {
    hide Literal, QuoteIdent, Join, JoinMeaning, Given, ReturningText, ColumnNames;
    var given := Given(t, data, |t.entity.fields|);
    var text := Join(ColumnNames(t, FieldsOf(given)), ", ");
    assert InsertHead(t, given) == "INSERT INTO " + t.Quoted(t.name) + (" (" + (text + ") VALUES ("));
    LiteralOfConcat(")", ReturningText(t, d));
  }

  lemma InsertSteps(t: Table, text: string, columns: seq<Keyset.Field>, values: seq<Value>, list: seq<Bound>,
                    end: seq<Bound>, returning: seq<string>)
    requires IsQuote(t.quote)
    requires ReadNames(Literal(text + ") VALUES (") + list, t.quote)
      == Got(ListAnswer.ColumnsOf(columns), Literal(") VALUES (") + list)
    requires ReadValues(list) == Got(values, end) && ReadReturning(end, t.quote) == Some(returning)
    ensures ReadInsert(Literal("INSERT INTO " + t.Quoted(t.name) + (" (" + (text + ") VALUES ("))) + list, t.quote)
      == Some(Insert(t.name, ListAnswer.ColumnsOf(columns), values, returning))
  {
    hide Says, Literal, QuoteIdent, ReadNames, ReadName, ReadValues, ReadReturning, ReadWordName;
    var afterTable := Literal(text + ") VALUES (") + list;
    var w := " (" + (text + ") VALUES (");
    Word(") VALUES (", list);
    Word(" (", afterTable);
    LiteralOfConcat(" (", text + ") VALUES (");
    assert Literal(w) + list == Literal(" (") + afterTable;
    WordNameReads(t.quote, "INSERT INTO ", t.name, w, list);
  }

  lemma GivenNeedsFields(t: Table, data: map<string, Value>)
    requires Given(t, data, |t.entity.fields|) != []
    ensures t.entity.fields != []
  {
  }

  /** Each field is given exactly when the record has its column, or else its name. */
  lemma {:induction false} GivenExactly(t: Table, data: map<string, Value>, k: nat, g: (Keyset.Field, Value))
    requires k <= |t.entity.fields|
    ensures g in Given(t, data, k) <==>
      exists i :: 0 <= i < k && t.entity.fields[i] == g.0 &&
        (if g.0.column in data then data[g.0.column] == g.1 else g.0.name in data && data[g.0.name] == g.1)
  {
    if k > 0 { GivenExactly(t, data, k - 1, g); }
  }

  // ---- UPDATE ----

  /** An assignment; None is NULL. */
  datatype Assignment = Assignment(col: string, v: Option<Value>)

  datatype Update = Update(table: string, sets: seq<Assignment>, where: Option<Expr>, returning: seq<string>)

  function ReadAssignment(m: seq<Bound>, q: char): (r: Read<Assignment>)
    ensures r.Got? ==> |r.rest| < |m|
  {
    var col := ReadName(m, q);
    if col.Fail? then Fail
    else if Says(col.rest, " = NULL") then Got(Assignment(col.value, None), col.rest[7..])
    else if Says(col.rest, " = ") && |col.rest| > 3 && col.rest[3].Arg? then
      Got(Assignment(col.value, Some(col.rest[3].v)), col.rest[4..])
    else Fail
  }

  function ReadSets(m: seq<Bound>, q: char): (r: Read<seq<Assignment>>)
    ensures r.Got? ==> |r.rest| < |m|
    decreases |m|
  {
    var s := ReadAssignment(m, q);
    if s.Fail? then Fail
    else if Says(s.rest, ", ") then
      var r := ReadSets(s.rest[2..], q);
      if r.Got? then Got([s.value] + r.value, r.rest) else Fail
    else Got([s.value], s.rest)
  }

  function ReadUpdate(m: seq<Bound>, q: char): Option<Update> {
    var table := ReadWordName(m, "UPDATE ", q);
    if table.Fail? || !Says(table.rest, " SET ") then None
    else
      var sets := ReadSets(table.rest[5..], q);
      if sets.Fail? then None
      else
        var where := ReadWhere(sets.rest, q);
        if where.Fail? then None
        else
          var returning := ReadReturning(where.rest, q);
          if returning.None? then None else Some(Update(table.value, sets.value, where.value, returning.value))
  }

  ghost predicate IsAssignment(q: char, m: seq<Bound>, s: Assignment) {
    forall rest: seq<Bound> :: ReadAssignment(m + rest, q) == Got(s, rest)
  }

  lemma EqualsReads(t: Table, col: string, v: Value)
    requires IsQuote(t.quote)
    ensures IsAssignment(t.quote, EqualsMeaning(t, col, v), Assignment(col, Some(v)))
  {
    hide Says, Literal, QuoteIdent, ReadName;
    forall rest: seq<Bound>
      ensures ReadAssignment(EqualsMeaning(t, col, v) + rest, t.quote) == Got(Assignment(col, Some(v)), rest)
    {
      var after := [Arg(v)] + rest;
      NameThen(t.quote, col, " = ", after);
      Word(" = ", after);
      assert EqualsMeaning(t, col, v) + rest == Literal(t.Quoted(col) + " = ") + after;
      var m := Literal(" = ") + after;
      assert m[3..] == after && m[3] == after[0] && m[4..] == rest;
      ArgIsNoWord(m, " = NULL", 3);
    }
  }

  lemma ArgIsNoWord(m: seq<Bound>, w: string, i: nat)
    requires i < |m| && i < |w| && m[i].Arg?
    ensures !Says(m, w)
  {
  }

  lemma NullReads(t: Table, col: string)
    requires IsQuote(t.quote)
    ensures IsAssignment(t.quote, Literal(t.Quoted(col) + " = NULL"), Assignment(col, None))
  {
    hide Says, Literal, QuoteIdent, ReadName;
    forall rest: seq<Bound>
      ensures ReadAssignment(Literal(t.Quoted(col) + " = NULL") + rest, t.quote) == Got(Assignment(col, None), rest)
    {
      NameThen(t.quote, col, " = NULL", rest);
      Word(" = NULL", rest);
    }
  }

  ghost predicate AreAssignments(q: char, ms: seq<seq<Bound>>, ss: seq<Assignment>) {
    |ms| == |ss| && forall i :: 0 <= i < |ms| ==> IsAssignment(q, ms[i], ss[i])
  }

  lemma AssignmentReads(q: char, m: seq<Bound>, s: Assignment, rest: seq<Bound>)
    requires IsAssignment(q, m, s)
    ensures ReadAssignment(m + rest, q) == Got(s, rest)
  {
  }

  lemma {:induction false} SetsRead(q: char, ms: seq<seq<Bound>>, ss: seq<Assignment>, rest: seq<Bound>)
    requires AreAssignments(q, ms, ss) && ms != [] && !Says(rest, ", ")
    ensures ReadSets(JoinMeaning(ms, ", ") + rest, q) == Got(ss, rest)
    decreases |ms|
  {
    hide Says, Literal, IsAssignment, ReadAssignment;
    if |ms| == 1 {
      AssignmentReads(q, ms[0], ss[0], rest);
      assert ss == [ss[0]];
    } else {
      var tail := JoinMeaning(ms[1..], ", ") + rest;
      SetsRead(q, ms[1..], ss[1..], rest);
      AssignmentReads(q, ms[0], ss[0], Literal(", ") + tail);
      Word(", ", tail);
      assert JoinMeaning(ms, ", ") + rest == ms[0] + (Literal(", ") + tail);
      assert [ss[0]] + ss[1..] == ss;
    }
  }

  /** The assignments of an update: the given fields that may be set, updated_at, and NULL for
      deleted_at when the row is revived. */
  function GivenSets(t: Table, data: map<string, Value>, k: nat): (ss: seq<Assignment>)
    requires k <= |t.entity.fields|
  {
    if k == 0 then []
    else
      var f := t.entity.fields[k - 1];
      GivenSets(t, data, k - 1)
      + if f.primaryKey || f.column in ["created_at", "updated_at", "deleted_at"] then []
        else if f.column in data then [Assignment(f.column, Some(data[f.column]))]
        else if f.name in data then [Assignment(f.column, Some(data[f.name]))]
        else []
  }

  function Sets(t: Table, data: map<string, Value>, g: Guard, now: Value): seq<Assignment> {
    GivenSets(t, data, |t.entity.fields|)
    + (if t.timestamps then [Assignment("updated_at", Some(now))] else [])
    + (if g.revive && t.softDelete then [Assignment("deleted_at", None)] else [])
  }

  lemma {:induction false} GivenSetsRead(t: Table, data: map<string, Value>, k: nat)
    requires IsQuote(t.quote) && k <= |t.entity.fields|
    ensures AreAssignments(t.quote, SetMeanings(t, data, k), GivenSets(t, data, k))
  {
    hide IsAssignment, EqualsMeaning;
    if k > 0 {
      GivenSetsRead(t, data, k - 1);
      var f := t.entity.fields[k - 1];
      if Lookup(data, f).Some? { EqualsReads(t, f.column, Lookup(data, f).value); }
    }
  }

  lemma AllSetsRead(t: Table, data: map<string, Value>, g: Guard, now: Value)
    requires IsQuote(t.quote)
    ensures AreAssignments(t.quote, AllSetMeanings(t, data, g, now), Sets(t, data, g, now))
  {
    hide IsAssignment, EqualsMeaning, SetMeanings, GivenSets, Literal, QuoteIdent;
    GivenSetsRead(t, data, |t.entity.fields|);
    EqualsReads(t, "updated_at", now);
    NullReads(t, "deleted_at");
  }

  /** The row's key, soft delete and row access unless the row is revived, and the guard. */
  function UpdateExprs(t: Table, id: Value, row: RowFilter, g: Guard, fragment: Expr): seq<Expr> {
    [Relates(t.entity.PrimaryColumn(), Same, id)]
    + (if t.softDelete && !g.revive then [NullTest("deleted_at", true)] else [])
    + (if row.sql != "" then [fragment] else [])
    + (if g.column != "" && g.value != Null
       then [Either(NullTest(g.column, true), Relates(g.column, Below, g.value))] else [])
  }

  lemma GuardReads(t: Table, g: Guard)
    requires IsQuote(t.quote)
    ensures IsTerm(t.quote, GuardMeaning(t, g), Either(NullTest(g.column, true), Relates(g.column, Below, g.value)))
  {
    hide IsTerm, Literal, QuoteIdent;
    var q, name := t.quote, t.Quoted(g.column);
    NullTerm(q, g.column, true);
    RelationTerm(q, g.column, Below, g.value);
    var x, y := Literal(name + " IS NULL"), Literal(name + " < ") + [Arg(g.value)];
    OrTerm(q, x, y, NullTest(g.column, true), Relates(g.column, Below, g.value));
    assert "(" + name + " IS NULL OR " + name + " < " == "(" + (name + " IS NULL" + (" OR " + (name + " < ")));
    LiteralOfConcat("(", name + " IS NULL" + (" OR " + (name + " < ")));
    LiteralOfConcat(name + " IS NULL", " OR " + (name + " < "));
    LiteralOfConcat(" OR ", name + " < ");
    assert GuardMeaning(t, g) == PairMeaning(x, " OR ", y);
  }

  lemma UpdateConditionsRead(t: Table, id: Value, row: RowFilter, g: Guard, fragment: Expr)
    requires IsQuote(t.quote) && ListAnswer.FragmentReads(t.quote, row, fragment)
    ensures AreTerms(t.quote, UpdateConditions(t, id, row, g), UpdateExprs(t, id, row, g, fragment))
  {
    hide IsTerm, Literal, QuoteIdent, FragmentMeaning, GuardMeaning;
    var pk := t.entity.PrimaryColumn();
    RelationTerm(t.quote, pk, Same, id);
    NullTerm(t.quote, "deleted_at", true);
    GuardReads(t, g);
    var key, live := EqualsMeaning(t, pk, id), t.(softDelete := !g.revive && t.softDelete);
    assert RowConditions(t, id, row, !g.revive) == [key] + GuardMeanings(live, row);
  }

  /** The text that Update executes reads as this UPDATE. */
  lemma UpdateReads(t: Table, d: Dialect, id: Value, data: map<string, Value>, row: RowFilter, g: Guard, now: Value,
                    fragment: Expr)
    requires IsQuote(t.quote) && t.entity.fields != [] && UpdateOk(t, data, g, now)
    requires ListAnswer.FragmentReads(t.quote, row, fragment)
    ensures ReadUpdate(UpdateMeaning(t, d, id, data, row, g, now), t.quote)
      == Some(Update(t.name, Sets(t, data, g, now), Some(Conj(UpdateExprs(t, id, row, g, fragment))),
                     if d.returning then ListAnswer.ColumnsOf(t.entity.fields) else []))
  {
    hide Says, Literal, QuoteIdent, ReadSets, ReadName, ReadWhere, ReadReturning, JoinMeaning, AllSetMeanings, Sets,
         UpdateConditions, WhereMeaning, ReturningText, AreTerms, AreAssignments, Conj, ListAnswer.FragmentReads,
         SetMeanings, ReadWordName, ReadUpdate, UpdateHead, UpdateMeaning;
    var sets, conditions := AllSetMeanings(t, data, g, now), UpdateConditions(t, id, row, g);
    var es := UpdateExprs(t, id, row, g, fragment);
    var end := Literal(ReturningText(t, d));
    ReturningReads(t, d);
    EndsStatement(end, t, d);
    AllSetsRead(t, data, g, now);
    UpdateConditionsRead(t, id, row, g, fragment);
    ListAnswer.WhereReads(t.quote, conditions, es, end);
    SomeConditions(t.quote, conditions, es);
    var where := WhereMeaning(conditions) + end;
    WhereNoComma(conditions, end);
    SetsGiven(t, data, g, now);
    SetsRead(t.quote, sets, Sets(t, data, g, now), where);
    UpdateSteps(t, sets, Sets(t, data, g, now), where, Conj(es), end,
                if d.returning then ListAnswer.ColumnsOf(t.entity.fields) else []);
    NamesUpdate(t, d, id, data, row, g, now);
    assert UpdateMeaning(t, d, id, data, row, g, now) == Literal(UpdateHead(t)) + (JoinMeaning(sets, ", ") + where);
  }

  lemma SetsGiven(t: Table, data: map<string, Value>, g: Guard, now: Value)
    requires UpdateOk(t, data, g, now)
    ensures AllSetMeanings(t, data, g, now) != []
  {
    hide SetMeanings;
  }

  lemma UpdateSteps(t: Table, sets: seq<seq<Bound>>, ss: seq<Assignment>, where: seq<Bound>, e: Expr, end: seq<Bound>,
                    returning: seq<string>)
    requires IsQuote(t.quote)
    requires ReadSets(JoinMeaning(sets, ", ") + where, t.quote) == Got(ss, where)
    requires ReadWhere(where, t.quote) == Got(Some(e), end) && ReadReturning(end, t.quote) == Some(returning)
    ensures ReadUpdate(Literal(UpdateHead(t)) + (JoinMeaning(sets, ", ") + where), t.quote)
      == Some(Update(t.name, ss, Some(e), returning))
  {
    hide Says, Literal, QuoteIdent, ReadSets, ReadName, ReadWhere, ReadReturning, JoinMeaning, ReadWordName;
    var tail := JoinMeaning(sets, ", ") + where;
    Word(" SET ", tail);
    WordNameReads(t.quote, "UPDATE ", t.name, " SET ", tail);
  }

  lemma SomeConditions(q: char, ms: seq<seq<Bound>>, es: seq<Expr>)
    requires AreTerms(q, ms, es) && es != []
    ensures ms != []
  {
  }

  lemma WhereNoComma(ms: seq<seq<Bound>>, end: seq<Bound>)
    requires ms != []
    ensures !Says(WhereMeaning(ms) + end, ", ")
  {
    hide JoinMeaning, Says, Literal;
    var tail := JoinMeaning(ms, " AND ") + end;
    OtherWord(" WHERE ", tail, ", ", 0);
    assert WhereMeaning(ms) + end == Literal(" WHERE ") + tail;
  }

  lemma EndsStatement(end: seq<Bound>, t: Table, d: Dialect)
    requires end == Literal(ReturningText(t, d))
    ensures !Says(end, " AND ") && !Says(end, " WHERE ")
  {
    hide Literal, SelectColumns;
    LiteralChars(ReturningText(t, d));
    if d.returning {
      var tail := Literal(SelectColumns(t));
      LiteralOfConcat(" RETURNING ", SelectColumns(t));
      OtherWord(" RETURNING ", tail, " AND ", 1);
      OtherWord(" RETURNING ", tail, " WHERE ", 1);
    }
  }
}
