/** Text assembled from literal parts and placeholders, together with what it means: the
    invariant every clause and query of the builder keeps. */
module Rendering {
  import opened SqlLogic
  import opened Strings
  import opened Numerals
  import opened Placeholders

  /** t holds exactly the placeholders $lo+1 … $hi, in that order, and with vals in their
      places it reads m. */
  predicate Rendered(t: string, lo: nat, hi: nat, vals: seq<Value>, m: seq<Bound>) {
    lo <= hi <= |vals| && Params(t) == Range(lo, hi) && Meaning(t, vals) == m
  }

  /** Literal text the builder may write: no placeholder in it. */
  predicate SafeText(s: string) { NoParam(s) }

  function PlaceholderText(n: nat): string { "$" + Itoa(n) }

  lemma {:induction false} RangeConcat(lo: nat, mid: nat, hi: nat)
    requires lo <= mid <= hi
    ensures Range(lo, mid) + Range(mid, hi) == Range(lo, hi)
    decreases mid - lo
  {
    if lo < mid {
      RangeConcat(lo + 1, mid, hi);
    }
  }

  lemma RLiteral(lit: string, k: nat, vals: seq<Value>)
    requires SafeText(lit) && k <= |vals|
    ensures Rendered(lit, k, k, vals, Literal(lit))
  {
    PlainText(lit, vals);
  }

  lemma RArgument(n: nat, vals: seq<Value>)
    requires 1 <= n <= |vals|
    ensures Rendered(PlaceholderText(n), n - 1, n, vals, [Arg(vals[n - 1])])
    ensures PlaceholderText(n) != [] && PlaceholderText(n)[0] == '$'
  {
    ScanOfPlaceholder(n);
    var p := [Param(n)];
    assert p[1..] == [];
    assert ParamsOf(p) == [n] + ParamsOf([]) && BindNumbered(p, vals) == [Arg(vals[n - 1])] + BindNumbered([], vals);
    assert Range(n - 1, n) == [n] + Range(n, n);
  }

  lemma RConcat(a: string, b: string, lo: nat, mid: nat, hi: nat, vals: seq<Value>, ma: seq<Bound>, mb: seq<Bound>)
    requires Rendered(a, lo, mid, vals, ma) && Rendered(b, mid, hi, vals, mb) && Joins(a, b)
    ensures Rendered(a + b, lo, hi, vals, ma + mb)
  {
    ConcatText(a, b, vals);
    RangeConcat(lo, mid, hi);
  }

  lemma {:induction false} MeaningGrows(pieces: seq<Piece>, vals: seq<Value>, more: seq<Value>)
    requires forall p <- pieces :: p.Param? ==> 1 <= p.n <= |vals|
    ensures BindNumbered(pieces, vals + more) == BindNumbered(pieces, vals)
  {
    if pieces != [] {
      assert pieces[0] in pieces;
      MeaningGrows(pieces[1..], vals, more);
    }
  }

  /** Arguments appended later do not change text already written. */
  lemma RGrow(t: string, lo: nat, hi: nat, vals: seq<Value>, m: seq<Bound>, more: seq<Value>)
    requires Rendered(t, lo, hi, vals, m)
    ensures Rendered(t, lo, hi, vals + more, m)
  {
    forall p | p in Scan(t) && p.Param? ensures 1 <= p.n <= |vals| {
      ParamsInRange(Scan(t), p);
      RangeElements(lo, hi, p.n);
    }
    MeaningGrows(Scan(t), vals, more);
  }

  /** Appending literal text that starts with something other than a digit. */
  lemma RThenLiteral(t: string, lo: nat, hi: nat, vals: seq<Value>, m: seq<Bound>, lit: string)
    requires Rendered(t, lo, hi, vals, m) && SafeText(lit) && (lit == [] || !IsDigit(lit[0]))
    ensures Rendered(t + lit, lo, hi, vals, m + Literal(lit))
  {
    RLiteral(lit, hi, vals);
    RConcat(t, lit, lo, hi, hi, vals, m, Literal(lit));
  }

  /** Appending the placeholder of the next argument. */
  lemma RThenArgument(t: string, lo: nat, vals: seq<Value>, m: seq<Bound>, v: Value)
    requires Rendered(t, lo, |vals|, vals, m)
    ensures Rendered(t + PlaceholderText(|vals| + 1), lo, |vals| + 1, vals + [v], m + [Arg(v)])
  {
    RGrow(t, lo, |vals|, vals, m, [v]);
    RArgument(|vals| + 1, vals + [v]);
    RConcat(t, PlaceholderText(|vals| + 1), lo, |vals|, |vals| + 1, vals + [v], m, [Arg(v)]);
  }

  // ---- lists of clauses ----

  function AllParams(parts: seq<string>): seq<nat> {
    if parts == [] then [] else Params(parts[0]) + AllParams(parts[1..])
  }

  ghost predicate RendersAll(parts: seq<string>, lo: nat, hi: nat, vals: seq<Value>, ms: seq<seq<Bound>>) {
    && lo <= hi <= |vals| && |parts| == |ms| && AllParams(parts) == Range(lo, hi)
    && forall i :: 0 <= i < |parts| ==> Meaning(parts[i], vals) == ms[i]
  }

  lemma {:induction false} AllParamsOfConcat(a: seq<string>, b: seq<string>)
    ensures AllParams(a + b) == AllParams(a) + AllParams(b)
  {
    if a == [] {
      assert a + b == b;
    } else {
      assert (a + b)[1..] == a[1..] + b;
      AllParamsOfConcat(a[1..], b);
    }
  }

  lemma NoClauses(k: nat, vals: seq<Value>)
    requires k <= |vals|
    ensures RendersAll([], k, k, vals, [])
  {
  }

  /** Adding one clause, rendered with the arguments handed out since the last one. */
  lemma AddClause(parts: seq<string>, lo: nat, mid: nat, vals: seq<Value>, ms: seq<seq<Bound>>, more: seq<Value>,
                  t: string, m: seq<Bound>)
    requires RendersAll(parts, lo, mid, vals, ms) && mid == |vals|
    requires Rendered(t, mid, |vals + more|, vals + more, m)
    ensures RendersAll(parts + [t], lo, |vals + more|, vals + more, ms + [m])
  {
    AllParamsOfConcat(parts, [t]);
    assert AllParams([t]) == Params(t) + AllParams([]);
    RangeConcat(lo, mid, |vals + more|);
    forall i | 0 <= i < |parts| ensures Meaning(parts[i], vals + more) == ms[i] {
      forall p | p in Scan(parts[i]) && p.Param? ensures 1 <= p.n <= |vals| {
        ParamsInRange(Scan(parts[i]), p);
        AllParamsContain(parts, i, p.n);
        RangeElements(lo, mid, p.n);
      }
      MeaningGrows(Scan(parts[i]), vals, more);
    }
  }

  lemma {:induction false} AllParamsContain(parts: seq<string>, i: nat, n: nat)
    requires i < |parts| && n in Params(parts[i])
    ensures n in AllParams(parts)
  {
    if i > 0 {
      AllParamsContain(parts[1..], i - 1, n);
    }
  }

  function JoinMeaning(ms: seq<seq<Bound>>, sep: string): seq<Bound> {
    if ms == [] then [] else if |ms| == 1 then ms[0] else ms[0] + Literal(sep) + JoinMeaning(ms[1..], sep)
  }

  /** A separator that cannot run into the clauses around it. */
  predicate Separator(sep: string) {
    sep != [] && SafeText(sep) && '$' !in sep && !IsDigit(sep[0])
  }

  lemma {:induction false} JoinText(parts: seq<string>, vals: seq<Value>, ms: seq<seq<Bound>>, sep: string)
    requires Separator(sep) && |parts| == |ms|
    requires forall i :: 0 <= i < |parts| ==> Meaning(parts[i], vals) == ms[i]
    ensures Params(Join(parts, sep)) == AllParams(parts)
    ensures Meaning(Join(parts, sep), vals) == JoinMeaning(ms, sep)
    decreases |parts|
  {
    hide Scan, ParamsOf, BindNumbered, Literal;
    if |parts| == 1 {
      assert AllParams(parts) == Params(parts[0]) + AllParams([]);
    } else if |parts| > 1 {
      forall i | 0 <= i < |parts[1..]| ensures Meaning(parts[1..][i], vals) == ms[1..][i] {
        assert parts[1..][i] == parts[i + 1] && ms[1..][i] == ms[i + 1];
      }
      JoinText(parts[1..], vals, ms[1..], sep);
      var rest := Join(parts[1..], sep);
      PlainText(sep, vals);
      ConcatText(sep, rest, vals);
      ConcatText(parts[0], sep + rest, vals);
      assert parts[0] + sep + rest == parts[0] + (sep + rest);
    } else {
      EmptyText(vals);
    }
  }

  lemma EmptyText(vals: seq<Value>)
    ensures Params("") == [] && Meaning("", vals) == []
  {
  }

  /** strings.Join of the clauses renders the joined meanings. */
  lemma RJoin(parts: seq<string>, lo: nat, hi: nat, vals: seq<Value>, ms: seq<seq<Bound>>, sep: string)
    requires RendersAll(parts, lo, hi, vals, ms) && Separator(sep)
    ensures Rendered(Join(parts, sep), lo, hi, vals, JoinMeaning(ms, sep))
  {
    JoinText(parts, vals, ms, sep);
  }

  /** Literal text in front of rendered text; the literal must not end in a placeholder. */
  lemma RAfterLiteral(lit: string, t: string, lo: nat, hi: nat, vals: seq<Value>, m: seq<Bound>)
    requires Rendered(t, lo, hi, vals, m) && SafeText(lit) && '$' !in lit
    ensures Rendered(lit + t, lo, hi, vals, Literal(lit) + m)
  {
    RLiteral(lit, lo, vals);
    RConcat(lit, t, lo, lo, hi, vals, Literal(lit), m);
  }

  /** A fragment with its own $1 … $n, put behind the arguments already handed out. */
  lemma RFragment(s: string, prior: seq<Value>, vals: seq<Value>)
    requires Indexed(s) && Params(s) == Range(0, |vals|)
    ensures Rendered(Reindex(s, |prior|), |prior|, |prior + vals|, prior + vals, Meaning(s, vals))
  {
    ReindexKeepsMeaning(s, prior, vals);
  }

  // ---- quoted identifiers ----

  /** QuoteIdent: the name between quotes, quotes in it doubled. */
  function Doubled(name: string, q: char): string {
    if name == [] then [] else (if name[0] == q then [q, q] else [name[0]]) + Doubled(name[1..], q)
  }

  function QuoteIdent(q: char, name: string): string { [q] + Doubled(name, q) + [q] }

  lemma {:induction false} DoubledSafe(name: string, q: char)
    requires SafeText(name) && (q == '"' || q == '`')
    ensures SafeText(Doubled(name, q))
    ensures Doubled(name, q) != [] ==> name != [] && Doubled(name, q)[0] == name[0]
    ensures name != [] ==> Doubled(name, q) != []
  {
    if name != [] {
      forall i | 0 <= i < |name[1..]| - 1 && name[1..][i] == '$' ensures !IsDigit(name[1..][i + 1]) {
        assert name[i + 1] == '$';
      }
      DoubledSafe(name[1..], q);
      var rest := Doubled(name[1..], q);
      assert name[0] in name;
      if rest != [] {
        assert rest[0] == name[1];
      }
      var head := if name[0] == q then [q, q] else [name[0]];
      forall i | 0 <= i < |head + rest| - 1 && (head + rest)[i] == '$' ensures !IsDigit((head + rest)[i + 1]) {
        if i >= |head| {
          assert rest[i - |head|] == '$';
        }
      }
    }
  }

  /** A quoted name without "$digit" is safe text, starts with the quote and holds
      no placeholder. */
  lemma QuotedSafe(q: char, name: string)
    requires SafeText(name) && (q == '"' || q == '`')
    ensures SafeText(QuoteIdent(q, name)) && QuoteIdent(q, name)[0] == q && !IsDigit(q)
  {
    DoubledSafe(name, q);
    var s, d := QuoteIdent(q, name), Doubled(name, q);
    forall i | 0 <= i < |s| - 1 && s[i] == '$' ensures !IsDigit(s[i + 1]) {
      assert s[i] == d[i - 1];
      if i < |d| { assert s[i + 1] == d[i]; }
    }
  }

  lemma SafeConcat(a: string, b: string)
    requires SafeText(a) && SafeText(b) && (b == [] || !IsDigit(b[0]))
    ensures SafeText(a + b)
  {
    forall i | 0 <= i < |a + b| - 1 && (a + b)[i] == '$' ensures !IsDigit((a + b)[i + 1]) {
      if i >= |a| { assert b[i - |a|] == '$'; }
    }
  }
}
