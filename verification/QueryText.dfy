/** The clauses of a query (internal/query/filter.go, internal/query/builder.go,
    internal/query/cursor.go), each rendered with its arguments appended to the query's
    argument list. Every clause is specified by what it reads once the arguments are put
    in place of the placeholders. */
module QueryText {
  import opened SqlLogic
  import opened Strings
  import opened Numerals
  import opened Placeholders
  import opened Rendering
  import Keyset

  /** An entity's table in one database. lower is the case folding of the search term. */
  datatype Table = Table(
    entity: Keyset.Entity,
    name: string,
    softDelete: bool,
    timestamps: bool,
    quote: char,
    lower: string -> string)
  {
    function Quoted(col: string): string { QuoteIdent(quote, col) }

    /** Names come from the configuration; none of them contains "$" followed by a digit. */
    predicate Safe() {
      && (quote == '"' || quote == '`')
      && SafeText(name) && SafeText(entity.PrimaryColumn())
      && forall f <- entity.fields :: SafeText(f.column)
    }
  }

  /** What the builder assumes of the configured names. */
  lemma SafeExactly(t: Table)
    ensures t.Safe() <==>
      && t.quote in {'"', '`'}
      && HasNoPlaceholder(t.name) && HasNoPlaceholder(t.entity.PrimaryColumn())
      && forall i :: 0 <= i < |t.entity.fields| ==> HasNoPlaceholder(t.entity.fields[i].column)
  {
    hide SafeText, HasNoPlaceholder;
    forall s: string ensures SafeText(s) <==> HasNoPlaceholder(s) { NoPlaceholder(s); }
    forall f | f in t.entity.fields &&
        (forall i :: 0 <= i < |t.entity.fields| ==> HasNoPlaceholder(t.entity.fields[i].column))
      ensures SafeText(f.column)
    {
      var i :| 0 <= i < |t.entity.fields| && t.entity.fields[i] == f;
    }
    forall i | t.Safe() && 0 <= i < |t.entity.fields| ensures HasNoPlaceholder(t.entity.fields[i].column) {
      assert t.entity.fields[i] in t.entity.fields;
    }
  }

  predicate HasNoPlaceholder(s: string) {
    forall i :: 0 <= i < |s| - 1 ==> !(s[i] == '$' && '0' <= s[i + 1] <= '9')
  }

  lemma NoPlaceholder(s: string)
    ensures SafeText(s) <==> HasNoPlaceholder(s)
  {
  }

  lemma {:induction false} DoubledStarts(q: char, name: string)
    requires q == '"' || q == '`'
    ensures Starts(Doubled(name, q) + [q]) == Starts(name)
  {
    if name == [] {
      assert Doubled(name, q) + [q] == [q] && [q][1..] == [];
    } else {
      var rest := Doubled(name[1..], q) + [q];
      DoubledStarts(q, name[1..]);
      var s := Doubled(name, q) + [q];
      if name[0] == q {
        assert s == [q] + ([q] + rest);
        assert s[1..] == [q] + rest && ([q] + rest)[1..] == rest;
      } else {
        assert s == [name[0]] + rest && s[1..] == rest;
        assert rest[0] == if |name| > 1 then name[1] else q;
      }
    }
  }

  /** A ? database gets a quoted name as it is if and only if no "$" in the name stands before a
      digit: the rewriting of placeholders does not spare quoted names. */
  lemma QuotedNameSurvives(q: char, name: string)
    requires q == '"' || q == '`'
    ensures Rebind(QuoteIdent(q, name)) == QuoteIdent(q, name) <==> SafeText(name)
  {
    hide Rebind;
    var s := QuoteIdent(q, name);
    RebindKeepsPlainText(s);
    PlainHasNoStarts(s);
    PlainHasNoStarts(name);
    DoubledStarts(q, name);
    assert s == [q] + (Doubled(name, q) + [q]) && s[1..] == Doubled(name, q) + [q];
  }

  /** value serves the one-value operators, values the lists, text the LIKE operators. */
  datatype Filter = Filter(column: string, op: string, value: Value, values: seq<Value>)

  datatype RowFilter = RowFilter(sql: string, args: seq<Value>)

  /** A fragment numbered $1 … $n for its n arguments. */
  predicate WellNumbered(f: RowFilter) {
    Params(f.sql) == Range(0, |f.args|) && Indexed(f.sql)
  }

  lemma {:induction false} FoundColumn(t: Table, key: string, from: nat := 0)
    requires t.Safe() && t.entity.FindField(key, from).Some?
    ensures SafeText(t.entity.FindField(key, from).value.column)
    decreases |t.entity.fields| - from
  {
    if from < |t.entity.fields| {
      assert t.entity.fields[from] in t.entity.fields;
      if !(t.entity.fields[from].column == key || t.entity.fields[from].name == key) {
        FoundColumn(t, key, from + 1);
      }
    }
  }

  method AddPlaceholder(a: Keyset.Args, v: Value) returns (ph: string)
    modifies a
    ensures a.vals == old(a.vals) + [v]
    ensures ph == PlaceholderText(|a.vals|)
  {
    var n := a.Add(v);
    ph := "$" + Itoa(n);
  }

  // ---- filters ----

  function EscapeChar(c: char): string {
    if c == '!' || c == '%' || c == '_' then ['!', c] else [c]
  }

  /** escapeLike: '!' escapes the wildcards and itself. */
  function EscapeLike(s: string): string {
    if s == [] then [] else EscapeChar(s[0]) + EscapeLike(s[1..])
  }

  function TextOf(v: Value): string { if v.Text? then v.s else "" }

  function FlagOf(v: Value): bool { v == Bool(true) }

  predicate OneArgument(op: string) {
    op in ["", "eq", "ne", "gt", "gte", "lt", "lte"]
  }

  function CompareText(op: string): string {
    if op == "gt" then " > " else if op == "gte" then " >= "
    else if op == "lt" then " < " else if op == "lte" then " <= " else " = "
  }

  function LikePattern(t: Table, f: Filter): string {
    (if f.op == "contains" then "%" else "") + EscapeLike(t.lower(TextOf(f.value))) + "%"
  }

  predicate KnownOp(op: string) {
    OneArgument(op) || op in ["in", "nin", "contains", "starts_with", "is_null"]
  }

  function ArgList(vals: seq<Value>): seq<seq<Bound>> {
    if vals == [] then [] else [[Arg(vals[0])]] + ArgList(vals[1..])
  }

  /** Membership in a list; an empty list matches nothing, its negation everything. */
  function MembershipMeaning(col: string, member: bool, vals: seq<Value>): seq<Bound> {
    if vals == [] then Literal(if member then "1 = 0" else "1 = 1")
    else Literal(col + if member then " IN (" else " NOT IN (") + JoinMeaning(ArgList(vals), ", ") + Literal(")")
  }

  /** What a filter says about its column. */
  function FilterMeaning(t: Table, f: Filter, column: string): seq<Bound> {
    var col := t.Quoted(column);
    if f.op == "ne" then
      Literal("(" + col + " <> ") + [Arg(f.value)] + Literal(" OR " + col + " IS NULL)")
    else if OneArgument(f.op) then Literal(col + CompareText(f.op)) + [Arg(f.value)]
    else if f.op == "in" || f.op == "nin" then
      MembershipMeaning(col, f.op == "in", f.values)
    else if f.op == "is_null" then Literal(col + if FlagOf(f.value) then " IS NULL" else " IS NOT NULL")
    else Literal("LOWER(" + col + ") LIKE ") + [Arg(Text(LikePattern(t, f)))] + Literal(" ESCAPE '!'")
  }

  lemma SafeColumn(t: Table, col: string)
    requires t.Safe() && SafeText(col)
    ensures SafeText(t.Quoted(col)) && t.Quoted(col) != [] && !IsDigit(t.Quoted(col)[0])
  {
    QuotedSafe(t.quote, col);
  }

  /** One argument between two literals. */
  method AroundArgument(a: Keyset.Args, before: string, v: Value, after: string) returns (text: string)
    requires SafeText(before) && SafeText(after) && (after == [] || !IsDigit(after[0]))
    modifies a
    ensures a.vals == old(a.vals) + [v]
    ensures Rendered(text, |old(a.vals)|, |a.vals|, a.vals, Literal(before) + [Arg(v)] + Literal(after))
    ensures before <= text
  {
    hide Rendered, SafeText, PlaceholderText;
    ghost var prior := a.vals;
    var ph := AddPlaceholder(a, v);
    RLiteral(before, |prior|, prior);
    RThenArgument(before, |prior|, prior, Literal(before), v);
    RThenLiteral(before + ph, |prior|, |a.vals|, a.vals, Literal(before) + [Arg(v)], after);
    text := before + ph + after;
  }

  /** The placeholders of a value list, comma separated. */
  method ArgumentList(a: Keyset.Args, vals: seq<Value>) returns (text: string)
    modifies a
    ensures a.vals == old(a.vals) + vals
    ensures Rendered(text, |old(a.vals)|, |a.vals|, a.vals, JoinMeaning(ArgList(vals), ", "))
    ensures text == "" || text[0] == '$'
  {
    hide Rendered, PlaceholderText, RendersAll, JoinMeaning;
    var ph: seq<string> := [];
    ghost var ms: seq<seq<Bound>> := [];
    ghost var prior := a.vals;
    NoClauses(|prior|, prior);
    for i := 0 to |vals|
      invariant a.vals == prior + vals[..i]
      invariant RendersAll(ph, |prior|, |a.vals|, a.vals, ms)
      invariant ms + ArgList(vals[i..]) == ArgList(vals)
      invariant ph == [] || (ph[0] != "" && ph[0][0] == '$')
    {
      ghost var before := a.vals;
      var p := AddPlaceholder(a, vals[i]);
      RArgument(|a.vals|, a.vals);
      AddClause(ph, |prior|, |before|, before, ms, [vals[i]], p, [Arg(vals[i])]);
      assert vals[i..][1..] == vals[i + 1..];
      assert ms + ([[Arg(vals[i])]] + ArgList(vals[i + 1..])) == (ms + [[Arg(vals[i])]]) + ArgList(vals[i + 1..]);
      ph, ms := ph + [p], ms + [[Arg(vals[i])]];
    }
    assert vals[|vals|..] == [] && vals[..|vals|] == vals && ms + ArgList([]) == ms;
    SeparatorComma();
    RJoin(ph, |prior|, |a.vals|, a.vals, ms, ", ");
    text := Join(ph, ", ");
  }

  lemma SeparatorComma()
    ensures Separator(", ") && Separator(" AND ") && Separator(" OR ")
  {
  }

  method ListClause(a: Keyset.Args, col: string, member: bool, vals: seq<Value>) returns (text: string)
    requires SafeText(col)
    modifies a
    ensures a.vals == old(a.vals) + vals
    ensures Rendered(text, |old(a.vals)|, |a.vals|, a.vals, MembershipMeaning(col, member, vals))
  {
    hide Rendered, JoinMeaning, SafeText, Literal;
    ghost var prior := a.vals;
    if vals == [] {
      text := if member then "1 = 0" else "1 = 1";
      SafeWords();
      RLiteral(text, |prior|, prior);
      return;
    }
    var kw := if member then " IN (" else " NOT IN (";
    SafeWords();
    SafeConcat(col, kw);
    var list := ArgumentList(a, vals);
    var m := JoinMeaning(ArgList(vals), ", ");
    RLiteral(col + kw, |prior|, a.vals);
    RConcat(col + kw, list, |prior|, |prior|, |a.vals|, a.vals, Literal(col + kw), m);
    RThenLiteral(col + kw + list, |prior|, |a.vals|, a.vals, Literal(col + kw) + m, ")");
    text := col + kw + list + ")";
  }

  lemma LiteralOfNothing(m: seq<Bound>)
    ensures m + Literal("") == m
  {
  }

  lemma SafeWords()
    ensures SafeText("1 = 0") && SafeText("1 = 1") && SafeText(" IN (") && SafeText(" NOT IN (") && SafeText(")")
  {
  }

  lemma FilterWords()
    ensures SafeText("") && SafeText("(") && SafeText(" <> ") && SafeText(" OR ") && SafeText(" IS NULL)")
    ensures SafeText("LOWER(") && SafeText(") LIKE ") && SafeText(" ESCAPE '!'") && SafeText(" IS NULL") &&
        SafeText(" IS NOT NULL")
    ensures forall op: string :: SafeText(CompareText(op)) && !IsDigit(CompareText(op)[0])
  {
  }

  /** filterClause */
  method FilterClause(a: Keyset.Args, t: Table, f: Filter) returns (r: Result<string>)
    requires t.Safe()
    modifies a
    ensures r.Ok? <==> t.entity.FindField(f.column).Some? && KnownOp(f.op)
    ensures old(a.vals) <= a.vals
    ensures r.Ok? ==> Rendered(r.value, |old(a.vals)|, |a.vals|, a.vals,
                               FilterMeaning(t, f, t.entity.FindField(f.column).value.column))
  {
    hide Rendered, JoinMeaning, QuoteIdent, MembershipMeaning, LikePattern, Literal, SafeText;
    FilterWords();
    var field := t.entity.FindField(f.column);
    if field.None? {
      return Err("unknown filter column");
    }
    FoundColumn(t, f.column);
    SafeColumn(t, field.value.column);
    var col := t.Quoted(field.value.column);
    ghost var prior := a.vals;
    if f.op == "ne" {
      SafeConcat("(", col);
      SafeConcat("(" + col, " <> ");
      SafeConcat(" OR ", col);
      SafeConcat(" OR " + col, " IS NULL)");
      var clause := AroundArgument(a, "(" + col + " <> ", f.value, " OR " + col + " IS NULL)");
      return Ok(clause);
    }
    if OneArgument(f.op) {
      SafeConcat(col, CompareText(f.op));
      var clause := AroundArgument(a, col + CompareText(f.op), f.value, "");
      LiteralOfNothing(Literal(col + CompareText(f.op)) + [Arg(f.value)]);
      return Ok(clause);
    }
    if f.op == "in" || f.op == "nin" {
      var clause := ListClause(a, col, f.op == "in", f.values);
      return Ok(clause);
    }
    if f.op == "contains" || f.op == "starts_with" {
      SafeConcat("LOWER(", col);
      SafeConcat("LOWER(" + col, ") LIKE ");
      var clause := AroundArgument(a, "LOWER(" + col + ") LIKE ", Text(LikePattern(t, f)), " ESCAPE '!'");
      return Ok(clause);
    }
    if f.op == "is_null" {
      var tail := if FlagOf(f.value) then " IS NULL" else " IS NOT NULL";
      SafeConcat(col, tail);
      RLiteral(col + tail, |prior|, prior);
      return Ok(col + tail);
    }
    return Err("unsupported filter operator");
  }

  predicate FiltersOk(t: Table, fs: seq<Filter>) {
    forall f <- fs :: t.entity.FindField(f.column).Some? && KnownOp(f.op)
  }

  function FilterMeanings(t: Table, fs: seq<Filter>): seq<seq<Bound>>
    requires FiltersOk(t, fs)
  {
    if fs == [] then []
    else
      FilterMeanings(t, fs[..|fs| - 1])
      + [FilterMeaning(t, fs[|fs| - 1], t.entity.FindField(fs[|fs| - 1].column).value.column)]
  }

  /** Soft delete and row access: the conditions the caller did not ask for. */
  function GuardMeanings(t: Table, row: RowFilter): seq<seq<Bound>> {
    (if t.softDelete then [Literal(t.Quoted("deleted_at") + " IS NULL")] else [])
    + (if row.sql == "" then [] else [FragmentMeaning(row)])
  }

  function FragmentMeaning(row: RowFilter): seq<Bound> {
    Literal("(") + Meaning(row.sql, row.args) + Literal(")")
  }

  /** addFragment between parentheses. */
  method FragmentClause(a: Keyset.Args, row: RowFilter) returns (text: string)
    requires WellNumbered(row)
    modifies a
    ensures a.vals == old(a.vals) + row.args
    ensures Rendered(text, |old(a.vals)|, |a.vals|, a.vals, FragmentMeaning(row))
  {
    hide Rendered, SafeText, Meaning, Params, Indexed;
    ghost var prior := a.vals;
    var out := ReindexFilter(row.sql, |a.vals|);
    a.vals := a.vals + row.args;
    RFragment(row.sql, prior, row.args);
    Parentheses();
    RAfterLiteral("(", out, |prior|, |a.vals|, a.vals, Meaning(row.sql, row.args));
    RThenLiteral("(" + out, |prior|, |a.vals|, a.vals, Literal("(") + Meaning(row.sql, row.args), ")");
    text := "(" + out + ")";
  }

  lemma Parentheses()
    ensures SafeText("(") && SafeText(")") && SafeText(" IS NULL") && SafeText("deleted_at")
  {
  }

  /** The literal clause for soft-deleted rows. */
  lemma NotDeleted(t: Table, k: nat, vals: seq<Value>)
    requires t.Safe() && k <= |vals|
    ensures var clause := t.Quoted("deleted_at") + " IS NULL"; Rendered(clause, k, k, vals, Literal(clause))
  {
    hide Rendered;
    Parentheses();
    SafeColumn(t, "deleted_at");
    SafeConcat(t.Quoted("deleted_at"), " IS NULL");
    RLiteral(t.Quoted("deleted_at") + " IS NULL", k, vals);
  }

  /** The row-access part shared by baseWhere, Update and Delete: adds the guards to the
      conditions collected so far. */
  method AddGuards(a: Keyset.Args, t: Table, row: RowFilter, where: seq<string>, ghost lo: nat,
                   ghost ms: seq<seq<Bound>>)
    returns (r: seq<string>)
    requires t.Safe() && WellNumbered(row)
    requires RendersAll(where, lo, |a.vals|, a.vals, ms)
    modifies a
    ensures a.vals == old(a.vals) + (if row.sql == "" then [] else row.args)
    ensures RendersAll(r, lo, |a.vals|, a.vals, ms + GuardMeanings(t, row))
    ensures where <= r
  {
    hide Rendered, RendersAll, FragmentMeaning, WellNumbered, QuoteIdent, Literal, SafeText;
    r := where;
    ghost var done := ms;
    if t.softDelete {
      var clause := t.Quoted("deleted_at") + " IS NULL";
      NotDeleted(t, |a.vals|, a.vals);
      assert a.vals + [] == a.vals;
      AddClause(r, lo, |a.vals|, a.vals, done, [], clause, Literal(clause));
      r, done := r + [clause], done + [Literal(clause)];
    }
    if row.sql != "" {
      ghost var prior := a.vals;
      var clause := FragmentClause(a, row);
      AddClause(r, lo, |prior|, prior, done, row.args, clause, FragmentMeaning(row));
      r, done := r + [clause], done + [FragmentMeaning(row)];
    }
    assert done == ms + GuardMeanings(t, row);
  }

  /** baseWhere: filters, soft delete, row access, in that order. */
  method BaseWhere(a: Keyset.Args, t: Table, fs: seq<Filter>, row: RowFilter) returns (r: Result<seq<string>>)
    requires t.Safe() && WellNumbered(row)
    modifies a
    ensures r.Ok? <==> FiltersOk(t, fs)
    ensures r.Ok? ==>
      && |old(a.vals)| <= |a.vals|
      && RendersAll(r.value, |old(a.vals)|, |a.vals|, a.vals, FilterMeanings(t, fs) + GuardMeanings(t, row))
  {
    hide Rendered, RendersAll, FilterMeaning, GuardMeanings, WellNumbered;
    var where: seq<string> := [];
    ghost var lo := |a.vals|;
    NoClauses(lo, a.vals);
    assert FilterMeanings(t, fs[..0]) == [];
    for i := 0 to |fs|
      invariant lo <= |a.vals| && FiltersOk(t, fs[..i])
      invariant RendersAll(where, lo, |a.vals|, a.vals, FilterMeanings(t, fs[..i]))
    {
      ghost var prior := a.vals;
      var clause := FilterClause(a, t, fs[i]);
      if clause.Err? {
        assert fs[i] in fs;
        return Err(clause.message);
      }
      ghost var m := FilterMeaning(t, fs[i], t.entity.FindField(fs[i].column).value.column);
      ghost var added := a.vals[|prior|..];
      assert prior + added == a.vals;
      AddClause(where, lo, |prior|, prior, FilterMeanings(t, fs[..i]), added, clause.value, m);
      assert fs[..i + 1][..i] == fs[..i];
      where := where + [clause.value];
    }
    assert fs[..|fs|] == fs;
    var all := AddGuards(a, t, row, where, lo, FilterMeanings(t, fs));
    r := Ok(all);
  }

  // ---- search ----

  datatype Search = Search(columns: seq<string>, term: string)

  function SearchPattern(t: Table, s: Search): string { "%" + EscapeLike(t.lower(s.term)) + "%" }

  function SearchColumn(t: Table, s: Search, column: string): seq<Bound> {
    Literal("LOWER(" + t.Quoted(column) + ") LIKE ") + [Arg(Text(SearchPattern(t, s)))] + Literal(" ESCAPE '!'")
  }

  /** One condition for each of the first k columns that is a field of the entity. */
  function SearchMeanings(t: Table, s: Search, k: nat): seq<seq<Bound>>
    requires k <= |s.columns|
  {
    if k == 0 then []
    else
      var f := t.entity.FindField(s.columns[k - 1]);
      SearchMeanings(t, s, k - 1) + if f.Some? then [SearchColumn(t, s, f.value.column)] else []
  }

  function SearchMeaning(t: Table, s: Search): seq<Bound> {
    var ms := if s.term == "" then [] else SearchMeanings(t, s, |s.columns|);
    if ms == [] then [] else Literal("(") + JoinMeaning(ms, " OR ") + Literal(")")
  }

  /** searchClause: the term in any of the columns; "" when there is nothing to search. */
  method SearchClause(a: Keyset.Args, t: Table, s: Search) returns (text: string)
    requires t.Safe()
    modifies a
    ensures old(a.vals) <= a.vals
    ensures text == "" <==> s.term == "" || SearchMeanings(t, s, |s.columns|) == []
    ensures Rendered(text, |old(a.vals)|, |a.vals|, a.vals, SearchMeaning(t, s))
  {
    hide Rendered, RendersAll, JoinMeaning, SearchColumn, SearchPattern, QuoteIdent, Literal;
    ghost var prior := a.vals;
    NothingRendered(prior);
    if s.term == "" || |s.columns| == 0 {
      return "";
    }
    var pattern := Text(SearchPattern(t, s));
    var parts: seq<string> := [];
    NoClauses(|prior|, prior);
    for i := 0 to |s.columns|
      invariant prior <= a.vals && |parts| == |SearchMeanings(t, s, i)|
      invariant RendersAll(parts, |prior|, |a.vals|, a.vals, SearchMeanings(t, s, i))
    {
      var f := t.entity.FindField(s.columns[i]);
      assert f.None? ==> SearchMeanings(t, s, i + 1) == SearchMeanings(t, s, i);
      if f.Some? {
        FoundColumn(t, s.columns[i]);
        SafeColumn(t, f.value.column);
        var col := t.Quoted(f.value.column);
        SafeConcat("LOWER(", col);
        SafeConcat("LOWER(" + col, ") LIKE ");
        ghost var before := a.vals;
        var part := AroundArgument(a, "LOWER(" + col + ") LIKE ", pattern, " ESCAPE '!'");
        SearchColumnIs(t, s, f.value.column, pattern);
        AddClause(parts, |prior|, |before|, before, SearchMeanings(t, s, i), [pattern], part,
            SearchColumn(t, s, f.value.column));
        parts := parts + [part];
      }
    }
    if |parts| == 0 {
      AllRenderedNothing(parts, |prior|, a.vals, SearchMeanings(t, s, |s.columns|));
      NothingRendered(a.vals);
      return "";
    }
    SeparatorComma();
    var m := JoinMeaning(SearchMeanings(t, s, |s.columns|), " OR ");
    RJoin(parts, |prior|, |a.vals|, a.vals, SearchMeanings(t, s, |s.columns|), " OR ");
    Parentheses();
    RAfterLiteral("(", Join(parts, " OR "), |prior|, |a.vals|, a.vals, m);
    RThenLiteral("(" + Join(parts, " OR "), |prior|, |a.vals|, a.vals, Literal("(") + m, ")");
    text := "(" + Join(parts, " OR ") + ")";
  }

  lemma SearchColumnIs(t: Table, s: Search, column: string, pattern: Value)
    requires pattern == Text(SearchPattern(t, s))
    ensures SearchColumn(t, s, column)
         == Literal("LOWER(" + t.Quoted(column) + ") LIKE ") + [Arg(pattern)] + Literal(" ESCAPE '!'")
  {
  }

  lemma NothingRendered(vals: seq<Value>)
    ensures Rendered("", |vals|, |vals|, vals, [])
  {
    EmptyText(vals);
  }

  lemma AllRenderedNothing(parts: seq<string>, lo: nat, vals: seq<Value>, ms: seq<seq<Bound>>)
    requires RendersAll(parts, lo, |vals|, vals, ms) && parts == []
    ensures lo == |vals|
  {
    RangeElements(lo, |vals|, |vals|);
  }

  // ---- the keyset condition as text ----

  function OpText(op: CompareOp): string {
    match op case Less => " < " case Greater => " > " case Equal => " = "
  }

  /** The text keysetClause writes for a condition. */
  function CondText(t: Table, c: Cond): string {
    match c
    case Compare(col, op, n) => t.Quoted(col) + OpText(op) + PlaceholderText(n)
    case IsNull(col) => t.Quoted(col) + " IS NULL"
    case And(l, r) => PairText(CondText(t, l), " AND ", CondText(t, r))
    case Or(l, r) => PairText(CondText(t, l), " OR ", CondText(t, r))
  }

  function PairText(x: string, sep: string, y: string): string { "(" + x + sep + y + ")" }

  function PairMeaning(x: seq<Bound>, sep: string, y: seq<Bound>): seq<Bound> {
    Literal("(") + x + Literal(sep) + y + Literal(")")
  }

  function CondMeaning(t: Table, c: Cond, vals: seq<Value>): seq<Bound> {
    match c
    case Compare(col, op, n) => Literal(t.Quoted(col) + OpText(op)) + [Arg(Argument(vals, n))]
    case IsNull(col) => Literal(t.Quoted(col) + " IS NULL")
    case And(l, r) => PairMeaning(CondMeaning(t, l, vals), " AND ", CondMeaning(t, r, vals))
    case Or(l, r) => PairMeaning(CondMeaning(t, l, vals), " OR ", CondMeaning(t, r, vals))
  }

  function ArgCount(c: Cond): nat {
    match c
    case Compare(_, _, _) => 1
    case IsNull(_) => 0
    case And(l, r) => ArgCount(l) + ArgCount(r)
    case Or(l, r) => ArgCount(l) + ArgCount(r)
  }

  /** The condition's placeholders, left to right, are lo+1, lo+2, … */
  predicate Ordered(c: Cond, lo: nat) {
    match c
    case Compare(_, _, n) => n == lo + 1
    case IsNull(_) => true
    case And(l, r) => Ordered(l, lo) && Ordered(r, lo + ArgCount(l))
    case Or(l, r) => Ordered(l, lo) && Ordered(r, lo + ArgCount(l))
  }

  predicate SafeColumns(c: Cond) {
    match c
    case Compare(col, _, _) => SafeText(col)
    case IsNull(col) => SafeText(col)
    case And(l, r) => SafeColumns(l) && SafeColumns(r)
    case Or(l, r) => SafeColumns(l) && SafeColumns(r)
  }

  lemma {:induction false} CondRenders(t: Table, c: Cond, lo: nat, vals: seq<Value>)
    requires t.Safe() && SafeColumns(c) && Ordered(c, lo) && lo + ArgCount(c) <= |vals|
    ensures Rendered(CondText(t, c), lo, lo + ArgCount(c), vals, CondMeaning(t, c, vals))
    ensures CondText(t, c) != [] && !IsDigit(CondText(t, c)[0])
    decreases c
  {
    hide Rendered, SafeText, QuoteIdent, PlaceholderText, Literal, OpText, PairText, PairMeaning, IsDigit;
    match c
    case Compare(col, op, n) =>
      CompareRenders(t, col, op, n, vals);
    case IsNull(col) =>
      IsNullRenders(t, col, lo, vals);
    case And(l, r) =>
      CondRenders(t, l, lo, vals);
      CondRenders(t, r, lo + ArgCount(l), vals);
      PairRenders(t, l, r, lo, vals, " AND ");
    case Or(l, r) =>
      CondRenders(t, l, lo, vals);
      CondRenders(t, r, lo + ArgCount(l), vals);
      PairRenders(t, l, r, lo, vals, " OR ");
  }

  lemma IsNullRenders(t: Table, col: string, lo: nat, vals: seq<Value>)
    requires t.Safe() && SafeText(col) && lo <= |vals|
    ensures Rendered(t.Quoted(col) + " IS NULL", lo, lo, vals, Literal(t.Quoted(col) + " IS NULL"))
    ensures t.Quoted(col) != [] && !IsDigit(t.Quoted(col)[0])
  {
    hide Rendered, SafeText, QuoteIdent, Literal;
    SafeColumn(t, col);
    CondWords();
    SafeConcat(t.Quoted(col), " IS NULL");
    RLiteral(t.Quoted(col) + " IS NULL", lo, vals);
  }

  lemma CompareRenders(t: Table, col: string, op: CompareOp, n: nat, vals: seq<Value>)
    requires t.Safe() && SafeText(col) && 1 <= n <= |vals|
    ensures Rendered(t.Quoted(col) + OpText(op) + PlaceholderText(n), n - 1, n, vals,
                     Literal(t.Quoted(col) + OpText(op)) + [Arg(vals[n - 1])])
    ensures t.Quoted(col) != [] && !IsDigit(t.Quoted(col)[0])
  {
    hide Rendered, SafeText, QuoteIdent, PlaceholderText, Literal;
    SafeColumn(t, col);
    CondWords();
    SafeConcat(t.Quoted(col), OpText(op));
    var head := t.Quoted(col) + OpText(op);
    RLiteral(head, n - 1, vals);
    RArgument(n, vals);
    RConcat(head, PlaceholderText(n), n - 1, n - 1, n, vals, Literal(head), [Arg(vals[n - 1])]);
  }

  lemma CondWords()
    ensures SafeText(" IS NULL") && SafeText(" AND ") && SafeText(" OR ") && SafeText("(") && SafeText(")")
    ensures forall op: CompareOp :: SafeText(OpText(op))
  {
  }

  lemma {:induction false} PairRenders(t: Table, l: Cond, r: Cond, lo: nat, vals: seq<Value>, sep: string)
    requires lo + ArgCount(l) + ArgCount(r) <= |vals| && (sep == " AND " || sep == " OR ")
    requires Rendered(CondText(t, l), lo, lo + ArgCount(l), vals, CondMeaning(t, l, vals))
    requires Rendered(CondText(t, r), lo + ArgCount(l), lo + ArgCount(l) + ArgCount(r), vals, CondMeaning(t, r, vals))
    requires CondText(t, r) != [] && !IsDigit(CondText(t, r)[0])
    ensures Rendered(PairText(CondText(t, l), sep, CondText(t, r)), lo, lo + ArgCount(l) + ArgCount(r), vals,
                     PairMeaning(CondMeaning(t, l, vals), sep, CondMeaning(t, r, vals)))
    ensures PairText(CondText(t, l), sep, CondText(t, r)) != [] &&
        !IsDigit(PairText(CondText(t, l), sep, CondText(t, r))[0])
  {
    hide Rendered, SafeText, CondText, CondMeaning, Literal;
    var x, y, mx, my := CondText(t, l), CondText(t, r), CondMeaning(t, l, vals), CondMeaning(t, r, vals);
    var mid, hi := lo + ArgCount(l), lo + ArgCount(l) + ArgCount(r);
    CondWords();
    RAfterLiteral("(", x, lo, mid, vals, mx);
    RThenLiteral("(" + x, lo, mid, vals, Literal("(") + mx, sep);
    RConcat("(" + x + sep, y, lo, mid, hi, vals, Literal("(") + mx + Literal(sep), my);
    RThenLiteral("(" + x + sep + y, lo, hi, vals, Literal("(") + mx + Literal(sep) + my, ")");
  }

  lemma KeysetIsOrdered(e: Keyset.Entity, s: Keyset.Sort, c: Keyset.Cursor, base: nat)
    ensures var cond := Keyset.KeysetCond(e, s, c, base);
            Ordered(cond, base) && ArgCount(cond) == |Keyset.KeysetArgs(e, s, c)|
    ensures SafeText(e.PrimaryColumn()) && SafeText(s.column) ==> SafeColumns(Keyset.KeysetCond(e, s, c, base))
  {
    hide SafeText;
    var pk := e.PrimaryColumn();
    var op := if s.desc then Less else Greater;
    if s.column != pk && c.value != Null {
      var first, second, third :=
          Compare(s.column, op, base + 1), Compare(s.column, Equal, base + 2), Compare(pk, op, base + 3);
      assert ArgCount(first) == ArgCount(second) == ArgCount(third) == 1;
      assert SafeText(pk) && SafeText(s.column) ==> SafeColumns(first) && SafeColumns(second) && SafeColumns(third);
      var tie := And(second, third);
      assert Ordered(second, base + 1) && Ordered(third, base + 2) && ArgCount(tie) == 2;
      assert Ordered(first, base) && Ordered(tie, base + 1);
      var clause := Or(first, tie);
      assert ArgCount(clause) == ArgCount(first) + ArgCount(tie);
      assert SafeColumns(first) && SafeColumns(tie) ==> SafeColumns(clause);
      assert Ordered(clause, base) && ArgCount(clause) == 3 &&
          (SafeText(pk) && SafeText(s.column) ==> SafeColumns(clause));
    }
  }

  /** The keyset condition with the cursor's values written in. */
  function CursorMeaning(t: Table, s: Keyset.Sort, c: Keyset.Cursor): seq<Bound> {
    CondMeaning(t, Keyset.KeysetCond(t.entity, s, c, 0), Keyset.KeysetArgs(t.entity, s, c))
  }

  lemma CursorMeaningShifts(t: Table, s: Keyset.Sort, c: Keyset.Cursor, prior: seq<Value>)
    ensures CondMeaning(t, Keyset.KeysetCond(t.entity, s, c, |prior|), prior + Keyset.KeysetArgs(t.entity, s, c))
         == CursorMeaning(t, s, c)
  {
    hide Literal, QuoteIdent;
    var args := Keyset.KeysetArgs(t.entity, s, c);
    var pk := t.entity.PrimaryColumn();
    var op := if s.desc then Less else Greater;
    var vals := prior + args;
    assert Argument(vals, |prior| + 1) == Argument(args, 1);
    if s.column != pk && c.value != Null {
      assert Argument(vals, |prior| + 2) == Argument(args, 2) && Argument(vals, |prior| + 3) == Argument(args, 3);
      ShiftedCompare(t, s.column, op, |prior| + 1, 1, vals, args);
      ShiftedCompare(t, s.column, Equal, |prior| + 2, 2, vals, args);
      ShiftedCompare(t, pk, op, |prior| + 3, 3, vals, args);
      var tie := And(Compare(s.column, Equal, |prior| + 2), Compare(pk, op, |prior| + 3));
      var tie0 := And(Compare(s.column, Equal, 2), Compare(pk, op, 3));
      assert CondMeaning(t, tie, vals) == CondMeaning(t, tie0, args);
      var clause := Or(Compare(s.column, op, |prior| + 1), tie);
      var clause0 := Or(Compare(s.column, op, 1), tie0);
      assert CondMeaning(t, clause, vals) == CondMeaning(t, clause0, args);
      NullTestMeaning(t, s.column, vals, args);
    } else {
      ShiftedCompare(t, pk, op, |prior| + 1, 1, vals, args);
      NullTestMeaning(t, s.column, vals, args);
    }
  }

  lemma ShiftedCompare(t: Table, col: string, op: CompareOp, m: nat, n: nat, vals: seq<Value>, args: seq<Value>)
    requires Argument(vals, m) == Argument(args, n)
    ensures CondMeaning(t, Compare(col, op, m), vals) == CondMeaning(t, Compare(col, op, n), args)
  {
  }

  lemma NullTestMeaning(t: Table, col: string, vals: seq<Value>, args: seq<Value>)
    ensures CondMeaning(t, IsNull(col), vals) == CondMeaning(t, IsNull(col), args)
  {
  }

  /** keysetClause as text: the condition of Keyset, with the cursor's values in place. */
  method KeysetText(a: Keyset.Args, t: Table, s: Keyset.Sort, c: Keyset.Cursor) returns (r: Result<string>)
    requires t.Safe() && SafeText(s.column)
    modifies a
    ensures r.Ok? <==> c.sort == s.column && c.desc == s.desc
    ensures r.Ok? ==> a.vals == old(a.vals) + Keyset.KeysetArgs(t.entity, s, c)
    ensures r.Ok? ==> Rendered(r.value, |old(a.vals)|, |a.vals|, a.vals, CursorMeaning(t, s, c))
  {
    hide Rendered, CondMeaning, CondText, SafeText;
    ghost var prior := a.vals;
    var cond := Keyset.KeysetClause(a, t.entity, s, c);
    if cond.Err? {
      return Err(cond.message);
    }
    KeysetIsOrdered(t.entity, s, c, |prior|);
    CondRenders(t, cond.value, |prior|, a.vals);
    CursorMeaningShifts(t, s, c, prior);
    r := Ok(CondText(t, cond.value));
  }
}
