/** What the statements of internal/query select, read out of their text: every filter, search,
    keyset condition and order key means what its name says, and a whole listing answers with the
    rows of its page. */
module QuerySemantics {
  import opened SqlLogic
  import opened Strings
  import opened Placeholders
  import opened Rendering
  import opened QueryText
  import opened SqlReader
  import LikeMatch
  import Keyset

  // ---- words and names ----

  lemma {:induction false} LiteralChars(w: string)
    ensures |Literal(w)| == |w| && forall i :: 0 <= i < |w| ==> Literal(w)[i] == Char(w[i])
  {
    if w != [] { LiteralChars(w[1..]); }
  }

  lemma Word(w: string, rest: seq<Bound>)
    ensures Says(Literal(w) + rest, w) && (Literal(w) + rest)[|w|..] == rest && |Literal(w)| == |w|
  {
    LiteralChars(w);
  }

  /** A text that starts with another word. */
  lemma OtherWord(v: string, rest: seq<Bound>, w: string, i: nat)
    requires i < |v| && i < |w| && v[i] != w[i]
    ensures !Says(Literal(v) + rest, w)
  {
    LiteralChars(v);
    assert (Literal(v) + rest)[i] == Char(v[i]);
  }

  predicate IsQuote(q: char) { q == '"' || q == '`' }

  lemma LiteralStep(c: char, w: string, rest: seq<Bound>)
    ensures Literal([c] + w) + rest == [Char(c)] + (Literal(w) + rest)
    ensures ([Char(c)] + (Literal(w) + rest))[1..] == Literal(w) + rest
  {
    assert ([c] + w)[1..] == w;
  }

  lemma {:induction false} NameReadsOn(q: char, name: string, rest: seq<Bound>)
    requires rest == [] || rest[0] != Char(q)
    ensures NameFrom(Literal(Doubled(name, q) + [q]) + rest, q) == Got(name, rest)
  {
    hide Literal, NameFrom;
    if name == [] {
      assert Doubled(name, q) + [q] == [q] + [];
      LiteralStep(q, [], rest);
      assert Literal([]) + rest == rest by { LiteralChars([]); }
      NameEnds(q, rest);
    } else {
      var tail := Doubled(name[1..], q) + [q];
      NameReadsOn(q, name[1..], rest);
      assert [name[0]] + name[1..] == name;
      if name[0] == q {
        assert Doubled(name, q) + [q] == [q] + ([q] + tail);
        LiteralStep(q, [q] + tail, rest);
        LiteralStep(q, tail, rest);
        QuoteDoubled(q, Literal(tail) + rest);
      } else {
        assert Doubled(name, q) + [q] == [name[0]] + tail;
        LiteralStep(name[0], tail, rest);
        NameGoesOn(q, name[0], Literal(tail) + rest);
      }
    }
  }

  lemma NameEnds(q: char, rest: seq<Bound>)
    requires rest == [] || rest[0] != Char(q)
    ensures NameFrom([Char(q)] + rest, q) == Got("", rest)
  {
    assert ([Char(q)] + rest)[1..] == rest;
  }

  lemma NameGoesOn(q: char, c: char, m: seq<Bound>)
    requires c != q
    ensures NameFrom([Char(c)] + m, q) == var r := NameFrom(m, q); if r.Got? then Got([c] + r.value, r.rest) else Fail
  {
    assert ([Char(c)] + m)[1..] == m;
  }

  lemma QuoteDoubled(q: char, m: seq<Bound>)
    ensures NameFrom([Char(q)] + ([Char(q)] + m), q) == var r := NameFrom(m, q);
        if r.Got? then Got([q] + r.value, r.rest) else Fail
  {
    assert ([Char(q)] + ([Char(q)] + m))[2..] == m;
  }

  /** A quoted name reads as the name, whatever quotes it contains. */
  lemma NameReads(q: char, name: string, rest: seq<Bound>)
    requires rest == [] || rest[0] != Char(q)
    ensures var m := Literal(QuoteIdent(q, name)) + rest;
      m != [] && m[0] == Char(q) && ReadName(m, q) == Got(name, rest)
  {
    hide Doubled, NameFrom;
    NameReadsOn(q, name, rest);
    var tail := Doubled(name, q) + [q];
    assert QuoteIdent(q, name) == [q] + tail && ([q] + tail)[1..] == tail;
    var m := Literal(QuoteIdent(q, name)) + rest;
    assert m == [Char(q)] + (Literal(tail) + rest) && m[1..] == Literal(tail) + rest;
  }

  /** A name and a word after it. */
  lemma NameThen(q: char, name: string, w: string, rest: seq<Bound>)
    requires IsQuote(q) && w != "" && w[0] != q
    ensures var m := Literal(QuoteIdent(q, name) + w) + rest;
      && m != [] && m[0] == Char(q) && ReadName(m, q) == Got(name, Literal(w) + rest)
  {
    hide QuoteIdent, ReadName;
    LiteralOfConcat(QuoteIdent(q, name), w);
    LiteralChars(w);
    var after := Literal(w) + rest;
    NameReads(q, name, after);
    assert Literal(QuoteIdent(q, name) + w) + rest == Literal(QuoteIdent(q, name)) + after;
  }

  // ---- terms ----

  /** m reads as the term e, whatever follows. */
  ghost predicate IsTerm(q: char, m: seq<Bound>, e: Expr) {
    forall rest: seq<Bound> :: ReadTerm(m + rest, q) == Got(e, rest)
  }

  lemma StartsWithName(m: seq<Bound>, q: char)
    requires IsQuote(q) && m != [] && m[0] == Char(q)
    ensures !Says(m, "(") && !Says(m, "LOWER(") && !Says(m, "1 = 0") && !Says(m, "1 = 1")
  {
  }

  /** A column, a word, and what ReadTail makes of it. */
  lemma TailTerm(q: char, col: string, w: string, args: seq<Bound>, e: Expr)
    requires IsQuote(q) && w != "" && w[0] == ' '
    requires forall rest: seq<Bound> :: ReadTail(col, Literal(w) + (args + rest)) == Got(e, rest)
    ensures IsTerm(q, Literal(QuoteIdent(q, col) + w) + args, e)
  {
    hide QuoteIdent, ReadName, ReadTail, Literal, ReadOr, ReadLike, Says;
    forall rest: seq<Bound> ensures ReadTerm(Literal(QuoteIdent(q, col) + w) + args + rest, q) == Got(e, rest) {
      NameThen(q, col, w, args + rest);
      var m := Literal(QuoteIdent(q, col) + w) + args + rest;
      assert m == Literal(QuoteIdent(q, col) + w) + (args + rest);
      StartsWithName(m, q);
    }
  }

  function Symbol(rel: Relation): string {
    match rel
    case Below => " < "
    case AtMost => " <= "
    case Above => " > "
    case AtLeast => " >= "
    case Same => " = "
    case Different => " <> "
  }

  lemma SymbolReads(rel: Relation, rest: seq<Bound>)
    ensures ReadRelation(Literal(Symbol(rel)) + rest) == Got(rel, rest)
  {
    hide Says, Literal;
    var v := Symbol(rel);
    Word(v, rest);
    if rel != Same { OtherWord(v, rest, " = ", 1); }
    if !(rel.Below? || rel.AtMost? || rel.Different?) { OtherWord(v, rest, " < ", 1); OtherWord(v, rest, " <> ", 1);
        OtherWord(v, rest, " <= ", 1); }
    if rel.Below? || rel.AtMost? { OtherWord(v, rest, " <> ", 2); }
    if rel.AtMost? { OtherWord(v, rest, " < ", 2); }
    if rel.AtLeast? { OtherWord(v, rest, " > ", 2); }
  }

  lemma RelationTail(col: string, rel: Relation, v: Value, rest: seq<Bound>)
    ensures ReadTail(col, Literal(Symbol(rel)) + ([Arg(v)] + rest)) == Got(Relates(col, rel, v), rest)
  {
    hide Says, Literal, ReadRelation;
    var w := Symbol(rel);
    SymbolReads(rel, [Arg(v)] + rest);
    OtherWord(w, [Arg(v)] + rest, " IS NULL", 1);
    OtherWord(w, [Arg(v)] + rest, " IS NOT NULL", 1);
    OtherWord(w, [Arg(v)] + rest, " IN (", 1);
    OtherWord(w, [Arg(v)] + rest, " NOT IN (", 1);
    assert ([Arg(v)] + rest)[1..] == rest;
  }

  lemma RelationTerm(q: char, col: string, rel: Relation, v: Value)
    requires IsQuote(q)
    ensures IsTerm(q, Literal(QuoteIdent(q, col) + Symbol(rel)) + [Arg(v)], Relates(col, rel, v))
  {
    hide IsTerm, ReadTail, Literal;
    forall rest: seq<Bound>
        ensures ReadTail(col, Literal(Symbol(rel)) + ([Arg(v)] + rest)) == Got(Relates(col, rel, v), rest) {
      RelationTail(col, rel, v, rest);
    }
    TailTerm(q, col, Symbol(rel), [Arg(v)], Relates(col, rel, v));
  }

  lemma NullTail(col: string, isNull: bool, rest: seq<Bound>)
    ensures ReadTail(col, Literal(if isNull then " IS NULL" else " IS NOT NULL") + ([] + rest))
        == Got(NullTest(col, isNull), rest)
  {
    hide Says, Literal, ReadRelation;
    var w := if isNull then " IS NULL" else " IS NOT NULL";
    assert [] + rest == rest;
    Word(w, rest);
    if !isNull { OtherWord(w, rest, " IS NULL", 5); }
  }

  lemma NullTerm(q: char, col: string, isNull: bool)
    requires IsQuote(q)
    ensures IsTerm(q, Literal(QuoteIdent(q, col) + if isNull then " IS NULL" else " IS NOT NULL"),
        NullTest(col, isNull))
  {
    hide IsTerm, ReadTail, Literal;
    var w := if isNull then " IS NULL" else " IS NOT NULL";
    forall rest: seq<Bound> ensures ReadTail(col, Literal(w) + ([] + rest)) == Got(NullTest(col, isNull), rest) {
      NullTail(col, isNull, rest);
    }
    TailTerm(q, col, w, [], NullTest(col, isNull));
    assert Literal(QuoteIdent(q, col) + w) + [] == Literal(QuoteIdent(q, col) + w);
  }

  // ---- lists of values ----

  lemma {:induction false} ValuesRead(vs: seq<Value>, rest: seq<Bound>)
    requires vs != []
    ensures ReadValues(JoinMeaning(ArgList(vs), ", ") + (Literal(")") + rest)) == Got(vs, rest)
  {
    hide Says, Literal;
    var m := JoinMeaning(ArgList(vs), ", ") + (Literal(")") + rest);
    if |vs| == 1 {
      assert ArgList(vs) == [[Arg(vs[0])]] by { assert ArgList(vs[1..]) == []; }
      Word(")", rest);
      assert JoinMeaning(ArgList(vs), ", ") == [Arg(vs[0])] && [vs[0]] == vs;
      assert m == [Arg(vs[0])] + (Literal(")") + rest) && m[1..] == Literal(")") + rest;
      assert m[2..] == (Literal(")") + rest)[1..];
    } else {
      var after := Literal(")") + rest;
      var list := JoinMeaning(ArgList(vs[1..]), ", ");
      var tail := list + after;
      ValuesRead(vs[1..], rest);
      ArgCounts(vs);
      assert ArgList(vs)[1..] == ArgList(vs[1..]) && ArgList(vs)[0] == [Arg(vs[0])];
      assert JoinMeaning(ArgList(vs), ", ") == [Arg(vs[0])] + Literal(", ") + list;
      assert m == [Arg(vs[0])] + (Literal(", ") + tail);
      ValuesStep(vs[0], tail);
      assert [vs[0]] + vs[1..] == vs;
    }
  }

  lemma ValuesStep(v: Value, tail: seq<Bound>)
    ensures var m := [Arg(v)] + (Literal(", ") + tail); var r := ReadValues(tail);
      ReadValues(m) == if r.Got? then Got([v] + r.value, r.rest) else Fail
  {
    hide Says, Literal;
    var m := [Arg(v)] + (Literal(", ") + tail);
    Word(", ", tail);
    OtherWord(", ", tail, ")", 0);
    assert m[1..] == Literal(", ") + tail;
    assert m[3..] == (Literal(", ") + tail)[2..];
  }

  lemma {:induction false} ArgCounts(vs: seq<Value>)
    ensures |ArgList(vs)| == |vs|
  {
    if vs != [] { ArgCounts(vs[1..]); }
  }

  lemma MembersTail(col: string, positive: bool, vs: seq<Value>, rest: seq<Bound>)
    requires vs != []
    ensures ReadTail(col, Literal(if positive then " IN ("
        else " NOT IN (") + (JoinMeaning(ArgList(vs), ", ") + Literal(")") + rest))
         == Got(Member(col, positive, vs), rest)
  {
    hide Says, Literal, ReadRelation, ReadValues, JoinMeaning;
    var w := if positive then " IN (" else " NOT IN (";
    var list := JoinMeaning(ArgList(vs), ", ");
    assert list + Literal(")") + rest == list + (Literal(")") + rest);
    ValuesRead(vs, rest);
    var after := list + (Literal(")") + rest);
    Word(w, after);
    OtherWord(w, after, " IS NULL", if positive then 2 else 1);
    OtherWord(w, after, " IS NOT NULL", if positive then 2 else 1);
    if !positive { OtherWord(w, after, " IN (", 1); }
  }

  lemma MembersTerm(q: char, col: string, positive: bool, vs: seq<Value>)
    requires IsQuote(q) && vs != []
    ensures IsTerm(q, Literal(QuoteIdent(q, col) + if positive then " IN ("
        else " NOT IN (") + JoinMeaning(ArgList(vs), ", ") + Literal(")"),
                   Member(col, positive, vs))
  {
    hide IsTerm, ReadTail, Literal, JoinMeaning;
    var w := if positive then " IN (" else " NOT IN (";
    var args := JoinMeaning(ArgList(vs), ", ") + Literal(")");
    forall rest: seq<Bound> ensures ReadTail(col, Literal(w) + (args + rest)) == Got(Member(col, positive, vs), rest) {
      MembersTail(col, positive, vs, rest);
    }
    TailTerm(q, col, w, args, Member(col, positive, vs));
    assert Literal(QuoteIdent(q, col) + w) + args
        == Literal(QuoteIdent(q, col) + w) + JoinMeaning(ArgList(vs), ", ") + Literal(")");
  }

  lemma ConstantTerm(q: char, truth: bool)
    ensures IsTerm(q, Literal(if truth then "1 = 1" else "1 = 0"), Constant(truth))
  {
    hide Says, Literal;
    var w := if truth then "1 = 1" else "1 = 0";
    forall rest: seq<Bound> ensures ReadTerm(Literal(w) + rest, q) == Got(Constant(truth), rest) {
      Word(w, rest);
      OtherWord(w, rest, "(", 0);
      OtherWord(w, rest, "LOWER(", 0);
      if truth { OtherWord(w, rest, "1 = 0", 4); }
    }
  }

  lemma MatchTerm(q: char, col: string, v: Value)
    requires IsQuote(q)
    ensures IsTerm(q, Literal("LOWER(" + QuoteIdent(q, col) + ") LIKE ") + [Arg(v)] + Literal(" ESCAPE '!'"),
        Matches(col, v))
  {
    hide Says, Literal, QuoteIdent, ReadName;
    var name, tail := QuoteIdent(q, col), Literal(" ESCAPE '!'");
    forall rest: seq<Bound>
      ensures ReadTerm(Literal("LOWER(" + name + ") LIKE ") + [Arg(v)] + tail + rest, q) == Got(Matches(col, v), rest)
    {
      var args := [Arg(v)] + (tail + rest);
      var m := Literal("LOWER(" + name + ") LIKE ") + [Arg(v)] + tail + rest;
      assert "LOWER(" + name + ") LIKE " == "LOWER(" + (name + ") LIKE ");
      LiteralOfConcat("LOWER(", name + ") LIKE ");
      var inner := Literal(name + ") LIKE ") + args;
      assert m == Literal("LOWER(") + inner;
      Word("LOWER(", inner);
      OtherWord("LOWER(", inner, "(", 0);
      NameThen(q, col, ") LIKE ", args);
      Word(") LIKE ", args);
      Word(" ESCAPE '!'", rest);
      assert args[0] == Arg(v) && args[1..] == tail + rest;
      assert args[12..] == (tail + rest)[11..];
    }
  }

  // ---- chains and parentheses ----

  function Conj(es: seq<Expr>): Expr
    requires es != []
  {
    if |es| == 1 then es[0] else Both(es[0], Conj(es[1..]))
  }

  function Disj(es: seq<Expr>): Expr
    requires es != []
  {
    if |es| == 1 then es[0] else Either(es[0], Disj(es[1..]))
  }

  ghost predicate AreTerms(q: char, ms: seq<seq<Bound>>, es: seq<Expr>) {
    |ms| == |es| && forall i :: 0 <= i < |ms| ==> IsTerm(q, ms[i], es[i])
  }

  lemma TermReads(q: char, m: seq<Bound>, e: Expr, rest: seq<Bound>)
    requires IsTerm(q, m, e)
    ensures ReadTerm(m + rest, q) == Got(e, rest)
  {
  }

  lemma {:induction false} ConjReads(q: char, ms: seq<seq<Bound>>, es: seq<Expr>, rest: seq<Bound>)
    requires AreTerms(q, ms, es) && ms != [] && !Says(rest, " AND ")
    ensures ReadAnd(JoinMeaning(ms, " AND ") + rest, q) == Got(Conj(es), rest)
    decreases |ms|
  {
    hide Says, Literal, IsTerm, ReadTerm;
    if |ms| == 1 {
      TermReads(q, ms[0], es[0], rest);
    } else {
      var tail := JoinMeaning(ms[1..], " AND ") + rest;
      ConjReads(q, ms[1..], es[1..], rest);
      TermReads(q, ms[0], es[0], Literal(" AND ") + tail);
      Word(" AND ", tail);
      assert JoinMeaning(ms, " AND ") + rest == ms[0] + (Literal(" AND ") + tail);
    }
  }

  lemma {:induction false} DisjReads(q: char, ms: seq<seq<Bound>>, es: seq<Expr>, rest: seq<Bound>)
    requires AreTerms(q, ms, es) && ms != [] && !Says(rest, " AND ") && !Says(rest, " OR ")
    ensures ReadOr(JoinMeaning(ms, " OR ") + rest, q) == Got(Disj(es), rest)
    decreases |ms|
  {
    hide Says, Literal, IsTerm, ReadTerm;
    if |ms| == 1 {
      TermReads(q, ms[0], es[0], rest);
    } else {
      var tail := JoinMeaning(ms[1..], " OR ") + rest;
      DisjReads(q, ms[1..], es[1..], rest);
      TermReads(q, ms[0], es[0], Literal(" OR ") + tail);
      Word(" OR ", tail);
      OtherWord(" OR ", tail, " AND ", 1);
      assert JoinMeaning(ms, " OR ") + rest == ms[0] + (Literal(" OR ") + tail);
    }
  }

  lemma ParenthesesRead(q: char, m: seq<Bound>, e: Expr)
    requires forall rest: seq<Bound> :: ReadOr(m + (Literal(")") + rest), q) == Got(e, Literal(")") + rest)
    ensures IsTerm(q, Literal("(") + m + Literal(")"), e)
  {
    hide Says, Literal, ReadOr;
    forall rest: seq<Bound> ensures ReadTerm(Literal("(") + m + Literal(")") + rest, q) == Got(e, rest) {
      var inner := m + (Literal(")") + rest);
      assert Literal("(") + m + Literal(")") + rest == Literal("(") + inner;
      Word("(", inner);
      Word(")", rest);
    }
  }

  lemma DisjTerm(q: char, ms: seq<seq<Bound>>, es: seq<Expr>)
    requires AreTerms(q, ms, es) && ms != []
    ensures IsTerm(q, Literal("(") + JoinMeaning(ms, " OR ") + Literal(")"), Disj(es))
  {
    assert es != [];
    hide Says, Literal, ReadOr, AreTerms, IsTerm, JoinMeaning;
    var m := JoinMeaning(ms, " OR ");
    forall rest: seq<Bound> ensures ReadOr(m + (Literal(")") + rest), q) == Got(Disj(es), Literal(")") + rest) {
      OtherWord(")", rest, " AND ", 0);
      OtherWord(")", rest, " OR ", 0);
      DisjReads(q, ms, es, Literal(")") + rest);
    }
    ParenthesesRead(q, m, Disj(es));
  }

  lemma OrTerm(q: char, x: seq<Bound>, y: seq<Bound>, e: Expr, f: Expr)
    requires IsTerm(q, x, e) && IsTerm(q, y, f)
    ensures IsTerm(q, PairMeaning(x, " OR ", y), Either(e, f))
  {
    hide IsTerm, Literal;
    var ms, es := [x, y], [e, f];
    assert ms[1..] == [y] && es[1..] == [f];
    DisjTerm(q, ms, es);
    assert JoinMeaning(ms, " OR ") == x + Literal(" OR ") + y;
    assert Literal("(") + JoinMeaning(ms, " OR ") + Literal(")") == PairMeaning(x, " OR ", y);
    assert Disj(es) == Either(e, f);
  }

  lemma AndTerm(q: char, x: seq<Bound>, y: seq<Bound>, e: Expr, f: Expr)
    requires IsTerm(q, x, e) && IsTerm(q, y, f)
    ensures IsTerm(q, PairMeaning(x, " AND ", y), Both(e, f))
  {
    hide IsTerm, Literal, Says, ReadAnd;
    var ms, es := [x, y], [e, f];
    assert ms[1..] == [y] && es[1..] == [f];
    assert JoinMeaning(ms[1..], " AND ") == y && Conj(es[1..]) == f;
    assert JoinMeaning(ms, " AND ") == x + Literal(" AND ") + y && Conj(es) == Both(e, f);
    var m := JoinMeaning(ms, " AND ");
    forall rest: seq<Bound> ensures ReadOr(m + (Literal(")") + rest), q) == Got(Both(e, f), Literal(")") + rest) {
      OtherWord(")", rest, " AND ", 0);
      OtherWord(")", rest, " OR ", 0);
      ConjReads(q, ms, es, Literal(")") + rest);
    }
    ParenthesesRead(q, m, Both(e, f));
    assert Literal("(") + m + Literal(")") == PairMeaning(x, " AND ", y);
  }
}
