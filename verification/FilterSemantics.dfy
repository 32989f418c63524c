/** The conditions of a query (internal/query/filter.go, internal/query/cursor.go), read out of
    their text and evaluated on a row. */
module FilterSemantics {
  import opened SqlLogic
  import opened Strings
  import opened Placeholders
  import opened Rendering
  import opened QueryText
  import opened SqlReader
  import opened QuerySemantics
  import LikeMatch
  import Keyset

  // ---- filters ----

  /** What a filter asks of the value v in its column; lower folds the case of the input. */
  ghost predicate Chosen(db: Database, lower: string -> string, f: Filter, col: string, v: Value) {
    match f.op
    case "is_null" => (v == Null) == (f.value == Bool(true))
    case "ne" => v == Null || (f.value != Null && db.coll(col, v) != db.coll(col, f.value))
    case "in" =>
      v != Null && exists i ::
        0 <= i < |f.values| && f.values[i] != Null && db.coll(col, v) == db.coll(col, f.values[i])
    case "nin" =>
      f.values == [] ||
      (v != Null && forall i :: 0 <= i < |f.values| ==>
          f.values[i] != Null && db.coll(col, v) != db.coll(col, f.values[i]))
    case "contains" => v != Null && exists i :: OccursAt(db.lower(v), lower(Input(f)), i)
    case "starts_with" => v != Null && lower(Input(f)) <= db.lower(v)
    case _ => v != Null && f.value != Null && Stands(f.op, db.coll(col, v), db.coll(col, f.value))
  }

  function Input(f: Filter): string { if f.value.Text? then f.value.s else "" }

  predicate Stands(op: string, x: real, y: real) {
    match op
    case "gt" => x > y
    case "gte" => x >= y
    case "lt" => x < y
    case "lte" => x <= y
    case _ => x == y
  }

  function RelationOf(op: string): Relation {
    match op
    case "gt" => Above
    case "gte" => AtLeast
    case "lt" => Below
    case "lte" => AtMost
    case _ => Same
  }

  function FilterExpr(t: Table, f: Filter, col: string): Expr {
    match f.op
    case "is_null" => NullTest(col, f.value == Bool(true))
    case "ne" => Either(Relates(col, Different, f.value), NullTest(col, true))
    case "in" => if f.values == [] then Constant(false) else Member(col, true, f.values)
    case "nin" => if f.values == [] then Constant(true) else Member(col, false, f.values)
    case "contains" => Matches(col, Text(LikePattern(t, f)))
    case "starts_with" => Matches(col, Text(LikePattern(t, f)))
    case _ => Relates(col, RelationOf(f.op), f.value)
  }

  lemma FilterReads(t: Table, f: Filter, col: string)
    requires IsQuote(t.quote) && KnownOp(f.op)
    ensures IsTerm(t.quote, FilterMeaning(t, f, col), FilterExpr(t, f, col))
  {
    hide IsTerm, Literal, QuoteIdent, JoinMeaning, LikePattern, QuerySemantics.Symbol;
    var q := t.quote;
    match f.op
    case "is_null" => NullTerm(q, col, f.value == Bool(true));
    case "ne" => NotEqualTerm(t, col, f.value);
    case "in" => ListTerm(q, col, true, f.values);
    case "nin" => ListTerm(q, col, false, f.values);
    case "contains" => MatchTerm(q, col, Text(LikePattern(t, f)));
    case "starts_with" => MatchTerm(q, col, Text(LikePattern(t, f)));
    case _ =>
      CompareIsSymbol(f.op);
      RelationTerm(q, col, RelationOf(f.op), f.value);
  }

  lemma CompareIsSymbol(op: string)
    ensures CompareText(op) == Symbol(RelationOf(op))
  {
  }

  lemma NotEqualTerm(t: Table, col: string, v: Value)
    requires IsQuote(t.quote)
    ensures IsTerm(t.quote,
        Literal("(" + t.Quoted(col) + " <> ") + [Arg(v)] + Literal(" OR " + t.Quoted(col) + " IS NULL)"),
                   Either(Relates(col, Different, v), NullTest(col, true)))
  {
    hide IsTerm, Literal, QuoteIdent;
    var q, name := t.quote, t.Quoted(col);
    RelationTerm(q, col, Different, v);
    NullTerm(q, col, true);
    var x, y := Literal(name + " <> ") + [Arg(v)], Literal(name + " IS NULL");
    OrTerm(q, x, y, Relates(col, Different, v), NullTest(col, true));
    assert "(" + name + " <> " == "(" + (name + " <> ");
    assert " OR " + name + " IS NULL)" == " OR " + (name + " IS NULL" + ")");
    LiteralOfConcat("(", name + " <> ");
    LiteralOfConcat(" OR ", name + " IS NULL" + ")");
    LiteralOfConcat(name + " IS NULL", ")");
    assert Literal("(" + name + " <> ") + [Arg(v)] + Literal(" OR " + name + " IS NULL)") == PairMeaning(x, " OR ", y);
  }

  lemma ListTerm(q: char, col: string, member: bool, vs: seq<Value>)
    requires IsQuote(q)
    ensures IsTerm(q, MembershipMeaning(QuoteIdent(q, col), member, vs),
                   if vs == [] then Constant(!member) else Member(col, member, vs))
  {
    hide IsTerm, Literal, QuoteIdent, JoinMeaning;
    if vs == [] { ConstantTerm(q, !member); } else { MembersTerm(q, col, member, vs); }
  }

  lemma {:induction false} AmongIsSome(coll: Collation, col: string, a: Value, vs: seq<Value>)
    ensures Among(coll, col, a, vs) == Yes <==>
      a != Null && exists i :: 0 <= i < |vs| && vs[i] != Null && coll(col, a) == coll(col, vs[i])
    ensures Among(coll, col, a, vs) == No <==>
      vs == [] || (a != Null && forall i :: 0 <= i < |vs| ==> vs[i] != Null && coll(col, a) != coll(col, vs[i]))
  {
    if vs != [] {
      AmongIsSome(coll, col, a, vs[1..]);
      var rest := vs[1..];
      assert forall i :: 1 <= i < |vs| ==> vs[i] == rest[i - 1];
      assert forall i :: 0 <= i < |rest| ==> rest[i] == vs[i + 1];
    }
  }

  lemma LikeEvaluates(db: Database, t: Table, f: Filter, col: string, row: Row)
    requires f.op == "contains" || f.op == "starts_with"
    ensures Evaluate(db, FilterExpr(t, f, col), row) == Yes <==> Chosen(db, t.lower, f, col, Get(row, col))
  {
    hide LikeMatch.Like, EscapeLike, OccursAt;
    var v := Get(row, col);
    if v != Null {
      LikeMatch.ContainsMatches(t.lower(Input(f)), db.lower(v));
      LikeMatch.StartsWithMatches(t.lower(Input(f)), db.lower(v));
      assert "" + EscapeLike(t.lower(Input(f))) == EscapeLike(t.lower(Input(f)));
    }
  }

  lemma ListEvaluates(db: Database, t: Table, f: Filter, col: string, row: Row)
    requires f.op == "in" || f.op == "nin"
    ensures Evaluate(db, FilterExpr(t, f, col), row) == Yes <==> Chosen(db, t.lower, f, col, Get(row, col))
  {
    AmongIsSome(db.coll, col, Get(row, col), f.values);
  }

  /** The expression is true on a row exactly when the filter asks for the row's value. */
  lemma FilterEvaluates(db: Database, t: Table, f: Filter, col: string, row: Row)
    requires KnownOp(f.op)
    ensures Evaluate(db, FilterExpr(t, f, col), row) == Yes <==> Chosen(db, t.lower, f, col, Get(row, col))
  {
    hide LikePattern, Among, OccursAt;
    if f.op in ["contains", "starts_with"] {
      LikeEvaluates(db, t, f, col, row);
    } else if f.op in ["in", "nin"] {
      ListEvaluates(db, t, f, col, row);
    }
  }

  /** The operators a filter may have. */
  lemma KnownOperators(op: string)
    ensures KnownOp(op) <==>
      op in ["", "eq", "ne", "gt", "gte", "lt", "lte", "in", "nin", "contains", "starts_with", "is_null"]
  {
  }

  /** Every filter, read out of the text that is executed for it: it is true on exactly the rows
      whose value stands in the relation its operator names, NULL included. */
  lemma FilterSelects(db: Database, t: Table, f: Filter, col: string, row: Row)
    requires IsQuote(t.quote)
    requires f.op in ["", "eq", "ne", "gt", "gte", "lt", "lte", "in", "nin", "contains", "starts_with", "is_null"]
    ensures var r := ReadTerm(FilterMeaning(t, f, col), t.quote);
      && r.Got? && r.rest == []
      && (Evaluate(db, r.value, row) == Yes <==> Chosen(db, t.lower, f, col, Get(row, col)))
  {
    KnownOperators(f.op);
    hide ReadTerm, Chosen, FilterMeaning, FilterExpr, Evaluate, KnownOp;
    FilterReads(t, f, col);
    TermReads(t.quote, FilterMeaning(t, f, col), FilterExpr(t, f, col), []);
    assert FilterMeaning(t, f, col) + [] == FilterMeaning(t, f, col);
    FilterEvaluates(db, t, f, col, row);
  }

  // ---- search ----

  function SearchExprs(t: Table, s: Search, k: nat): (es: seq<Expr>)
    requires k <= |s.columns|
    ensures |es| == |SearchMeanings(t, s, k)|
  {
    if k == 0 then []
    else
      var f := t.entity.FindField(s.columns[k - 1]);
      SearchExprs(t, s, k - 1) + if f.Some? then [Matches(f.value.column, Text(SearchPattern(t, s)))] else []
  }

  lemma {:induction false} SearchTerms(t: Table, s: Search, k: nat)
    requires IsQuote(t.quote) && k <= |s.columns|
    ensures AreTerms(t.quote, SearchMeanings(t, s, k), SearchExprs(t, s, k))
  {
    hide IsTerm, Literal, QuoteIdent, SearchPattern;
    if k > 0 {
      SearchTerms(t, s, k - 1);
      var f := t.entity.FindField(s.columns[k - 1]);
      if f.Some? { MatchTerm(t.quote, f.value.column, Text(SearchPattern(t, s))); }
    }
  }

  /** The input occurs, with case folded, in a searched column of the row. */
  ghost predicate Found(db: Database, t: Table, s: Search, row: Row) {
    exists k :: 0 <= k < |s.columns| && FoundIn(db, t, s, k, row)
  }

  ghost predicate FoundIn(db: Database, t: Table, s: Search, k: nat, row: Row)
    requires k < |s.columns|
  {
    var f := t.entity.FindField(s.columns[k]);
    f.Some? && Get(row, f.value.column) != Null &&
        exists i :: OccursAt(db.lower(Get(row, f.value.column)), t.lower(s.term), i)
  }

  lemma {:induction false} DisjIsSome(db: Database, es: seq<Expr>, row: Row)
    requires es != []
    ensures Evaluate(db, Disj(es), row) == Yes <==> exists i :: 0 <= i < |es| && Evaluate(db, es[i], row) == Yes
  {
    if |es| > 1 {
      DisjIsSome(db, es[1..], row);
      assert forall i :: 1 <= i < |es| ==> es[i] == es[1..][i - 1];
      assert forall i :: 0 <= i < |es[1..]| ==> es[1..][i] == es[i + 1];
    }
  }

  lemma {:induction false} ConjIsAll(db: Database, es: seq<Expr>, row: Row)
    requires es != []
    ensures Evaluate(db, Conj(es), row) == Yes <==> forall i :: 0 <= i < |es| ==> Evaluate(db, es[i], row) == Yes
  {
    if |es| > 1 {
      ConjIsAll(db, es[1..], row);
      assert forall i :: 1 <= i < |es| ==> es[i] == es[1..][i - 1];
      assert forall i :: 0 <= i < |es[1..]| ==> es[1..][i] == es[i + 1];
    }
  }

  lemma MatchesIsFound(db: Database, t: Table, s: Search, k: nat, row: Row)
    requires k < |s.columns| && t.entity.FindField(s.columns[k]).Some?
    ensures Evaluate(db, Matches(t.entity.FindField(s.columns[k]).value.column, Text(SearchPattern(t, s))), row) == Yes
      <==> FoundIn(db, t, s, k, row)
  {
    hide LikeMatch.Like, EscapeLike, OccursAt;
    var v := Get(row, t.entity.FindField(s.columns[k]).value.column);
    if v != Null { LikeMatch.ContainsMatches(t.lower(s.term), db.lower(v)); }
  }

  ghost predicate SomeTrue(db: Database, es: seq<Expr>, row: Row) {
    exists i :: 0 <= i < |es| && Evaluate(db, es[i], row) == Yes
  }

  ghost predicate FoundWithin(db: Database, t: Table, s: Search, k: nat, row: Row)
    requires k <= |s.columns|
  {
    exists j :: 0 <= j < k && FoundIn(db, t, s, j, row)
  }

  lemma SomeTrueAppends(db: Database, es: seq<Expr>, e: Expr, row: Row)
    ensures SomeTrue(db, es + [e], row) <==> SomeTrue(db, es, row) || Evaluate(db, e, row) == Yes
  {
    hide Evaluate;
    var all := es + [e];
    assert all[|es|] == e && forall i :: 0 <= i < |es| ==> all[i] == es[i];
  }

  lemma {:induction false} SearchFinds(db: Database, t: Table, s: Search, k: nat, row: Row)
    requires k <= |s.columns|
    ensures SomeTrue(db, SearchExprs(t, s, k), row) <==> FoundWithin(db, t, s, k, row)
  {
    hide FoundIn, SearchPattern, Evaluate, SomeTrue, SearchExprs, FoundWithin, SearchMeanings, Keyset.Entity.FindField;
    SearchStep(t, s, k);
    FoundStep(db, t, s, k, row);
    if k == 0 {
      NoneTrue(db, row);
    } else {
      SearchFinds(db, t, s, k - 1, row);
      var f := t.entity.FindField(s.columns[k - 1]);
      if f.Some? {
        MatchesIsFound(db, t, s, k - 1, row);
        SomeTrueAppends(db, SearchExprs(t, s, k - 1), Matches(f.value.column, Text(SearchPattern(t, s))), row);
      } else {
        NotAField(db, t, s, k - 1, row);
      }
    }
  }

  lemma SearchStep(t: Table, s: Search, k: nat)
    requires k <= |s.columns|
    ensures SearchExprs(t, s, 0) == []
    ensures k > 0 ==>
      var f := t.entity.FindField(s.columns[k - 1]);
      SearchExprs(t, s, k) ==
        if f.Some? then SearchExprs(t, s, k - 1) + [Matches(f.value.column, Text(SearchPattern(t, s)))]
        else SearchExprs(t, s, k - 1)
  {
    hide SearchPattern, SearchMeanings;
  }

  lemma FoundStep(db: Database, t: Table, s: Search, k: nat, row: Row)
    requires k <= |s.columns|
    ensures !FoundWithin(db, t, s, 0, row)
    ensures k > 0 ==> (FoundWithin(db, t, s, k, row)
        <==> FoundWithin(db, t, s, k - 1, row) || FoundIn(db, t, s, k - 1, row))
  {
    hide FoundIn;
  }

  lemma NoneTrue(db: Database, row: Row)
    ensures !SomeTrue(db, [], row)
  {
  }

  lemma NotAField(db: Database, t: Table, s: Search, k: nat, row: Row)
    requires k < |s.columns| && t.entity.FindField(s.columns[k]).None?
    ensures !FoundIn(db, t, s, k, row)
  {
  }

  /** There is something to search for, in some column that is a field. */
  ghost predicate Searches(t: Table, s: Search) {
    s.term != "" && exists k :: 0 <= k < |s.columns| && t.entity.FindField(s.columns[k]).Some?
  }

  lemma {:induction false} SearchableColumns(t: Table, s: Search, k: nat)
    requires k <= |s.columns|
    ensures SearchMeanings(t, s, k) != [] <==> exists j :: 0 <= j < k && t.entity.FindField(s.columns[j]).Some?
  {
    hide SearchColumn, Keyset.Entity.FindField;
    if k > 0 { SearchableColumns(t, s, k - 1); }
  }

  lemma SearchIsAsked(t: Table, s: Search)
    ensures SearchMeaning(t, s) != [] <==> Searches(t, s)
  {
    hide SearchMeanings, JoinMeaning, Keyset.Entity.FindField;
    SearchableColumns(t, s, |s.columns|);
    LiteralChars("(");
  }

  lemma SearchTerm(t: Table, s: Search)
    requires IsQuote(t.quote) && SearchMeaning(t, s) != []
    ensures SearchExprs(t, s, |s.columns|) != []
    ensures IsTerm(t.quote, SearchMeaning(t, s), Disj(SearchExprs(t, s, |s.columns|)))
  {
    hide IsTerm, Literal, JoinMeaning, SearchExprs, SearchMeanings;
    SearchTerms(t, s, |s.columns|);
    DisjTerm(t.quote, SearchMeanings(t, s, |s.columns|), SearchExprs(t, s, |s.columns|));
  }

  /** The search condition, read out of its text, is true on exactly the rows in which the term is
      found. */
  lemma SearchSelects(db: Database, t: Table, s: Search, row: Row)
    requires IsQuote(t.quote) && SearchMeaning(t, s) != []
    ensures var r := ReadTerm(SearchMeaning(t, s), t.quote);
      && r == Got(Disj(SearchExprs(t, s, |s.columns|)), [])
      && (Evaluate(db, r.value, row) == Yes <==> Found(db, t, s, row))
  {
    SearchTerm(t, s);
    hide IsTerm, FoundIn, Evaluate, SearchMeaning, SearchExprs, ReadTerm;
    assert Found(db, t, s, row) <==> FoundWithin(db, t, s, |s.columns|, row);
    var es := SearchExprs(t, s, |s.columns|);
    TermReads(t.quote, SearchMeaning(t, s), Disj(es), []);
    assert SearchMeaning(t, s) + [] == SearchMeaning(t, s);
    DisjIsSome(db, es, row);
    SearchFinds(db, t, s, |s.columns|, row);
  }

  // ---- the keyset condition ----

  function RelationOfOp(op: CompareOp): Relation {
    match op case Less => Below case Greater => Above case Equal => Same
  }

  function CondExpr(c: Cond, vals: seq<Value>): Expr {
    match c
    case Compare(col, op, n) => Relates(col, RelationOfOp(op), Argument(vals, n))
    case IsNull(col) => NullTest(col, true)
    case And(l, r) => Both(CondExpr(l, vals), CondExpr(r, vals))
    case Or(l, r) => Either(CondExpr(l, vals), CondExpr(r, vals))
  }

  lemma OpIsSymbol(op: CompareOp)
    ensures OpText(op) == Symbol(RelationOfOp(op))
  {
  }

  lemma {:induction false} CondReads(t: Table, c: Cond, vals: seq<Value>)
    requires IsQuote(t.quote)
    ensures IsTerm(t.quote, CondMeaning(t, c, vals), CondExpr(c, vals))
  {
    hide IsTerm, Literal, QuoteIdent, PairMeaning, Argument;
    match c
    case Compare(col, op, n) =>
      OpIsSymbol(op);
      RelationTerm(t.quote, col, RelationOfOp(op), Argument(vals, n));
    case IsNull(col) => NullTerm(t.quote, col, true);
    case And(l, r) =>
      CondReads(t, l, vals);
      CondReads(t, r, vals);
      AndTerm(t.quote, CondMeaning(t, l, vals), CondMeaning(t, r, vals), CondExpr(l, vals), CondExpr(r, vals));
    case Or(l, r) =>
      CondReads(t, l, vals);
      CondReads(t, r, vals);
      OrTerm(t.quote, CondMeaning(t, l, vals), CondMeaning(t, r, vals), CondExpr(l, vals), CondExpr(r, vals));
  }

  lemma {:induction false} CondEvaluates(db: Database, c: Cond, vals: seq<Value>, row: Row)
    ensures Evaluate(db, CondExpr(c, vals), row) == Eval(db.coll, c, row, vals)
  {
    match c
    case Compare(_, _, _) =>
    case IsNull(_) =>
    case And(l, r) =>
      CondEvaluates(db, l, vals, row);
      CondEvaluates(db, r, vals, row);
    case Or(l, r) =>
      CondEvaluates(db, l, vals, row);
      CondEvaluates(db, r, vals, row);
  }

  /** The keyset condition, read out of its text, is true on exactly the stored rows strictly after
      the cursor. */
  lemma KeysetSelects(db: Database, t: Table, s: Keyset.Sort, c: Keyset.Cursor, row: Row)
    requires IsQuote(t.quote) && t.entity.Stored(row, s.column) && c.id != Null
    ensures var r := ReadTerm(CursorMeaning(t, s, c), t.quote);
      && r.Got? && r.rest == []
      && (Evaluate(db, r.value, row) == Yes <==>
          Keyset.Before(db.coll, t.entity, s, Keyset.Position(c.value, c.id), Keyset.PositionOf(t.entity, s, row)))
  {
    hide ReadTerm, Evaluate, CondMeaning, CondExpr, Eval, IsTerm;
    var cond, args := Keyset.KeysetCond(t.entity, s, c, 0), Keyset.KeysetArgs(t.entity, s, c);
    CondReads(t, cond, args);
    TermReads(t.quote, CursorMeaning(t, s, c), CondExpr(cond, args), []);
    assert CursorMeaning(t, s, c) + [] == CursorMeaning(t, s, c);
    CondEvaluates(db, cond, args, row);
    Keyset.KeysetIsAfter(db.coll, t.entity, s, c, row, []);
    assert [] + args == args;
  }
}
