/** Placeholder text: $1, $2, … as the builder writes them, renumbering a fragment
    (internal/query/builder.go) and rewriting to ? for MySQL and SQLite
    (internal/dialect/rebind.go). A query means its text with every placeholder replaced
    by the value bound to it. */
module Placeholders {
  import opened Numerals
  import opened SqlLogic
  import opened Strings

  // ---- reading a query ----

  datatype Piece = Raw(c: char) | Param(n: nat)

  predicate AtParam(s: string) { |s| > 1 && s[0] == '$' && IsDigit(s[1]) }

  function Scan(s: string): seq<Piece> {
    if s == [] then []
    else if AtParam(s) then
      var k := DigitRun(s[1..]);
      [Param(Number(s[1..1 + k]))] + Scan(s[1 + k..])
    else [Raw(s[0])] + Scan(s[1..])
  }

  lemma ScanStep(s: string)
    requires s != []
    ensures AtParam(s) ==>
      && DigitRun(s[1..]) > 0
      && Scan(s) == [Param(Number(s[1..1 + DigitRun(s[1..])]))] + Scan(s[1 + DigitRun(s[1..])..])
    ensures !AtParam(s) ==> Scan(s) == [Raw(s[0])] + Scan(s[1..])
  {
    hide Number;
  }

  function ParamsOf(pieces: seq<Piece>): seq<nat> {
    if pieces == [] then []
    else (if pieces[0].Param? then [pieces[0].n] else []) + ParamsOf(pieces[1..])
  }

  /** The placeholder numbers in the order they appear. */
  function Params(s: string): seq<nat> { ParamsOf(Scan(s)) }

  /** lo+1, lo+2, …, hi */
  function Range(lo: nat, hi: nat): seq<nat>
    requires lo <= hi
    decreases hi - lo
  {
    if lo == hi then [] else [lo + 1] + Range(lo + 1, hi)
  }

  /** Text with values in place of placeholders. */
  datatype Bound = Char(c: char) | Arg(v: Value) | Missing

  function BindNumbered(pieces: seq<Piece>, vals: seq<Value>): seq<Bound> {
    if pieces == [] then []
    else
      var head := match pieces[0]
        case Raw(c) => Char(c)
        case Param(n) => if 1 <= n <= |vals| then Arg(vals[n - 1]) else Missing;
      [head] + BindNumbered(pieces[1..], vals)
  }

  /** What a database that understands $n executes. */
  function Meaning(s: string, vals: seq<Value>): seq<Bound> { BindNumbered(Scan(s), vals) }

  /** What a database that understands ? executes: the k-th ? takes the k-th value. */
  function QuestionMeaning(s: string, vals: seq<Value>): seq<Bound> {
    if s == [] then []
    else if s[0] == '?' then
      if vals == [] then [Missing] + QuestionMeaning(s[1..], [])
      else [Arg(vals[0])] + QuestionMeaning(s[1..], vals[1..])
    else [Char(s[0])] + QuestionMeaning(s[1..], vals)
  }

  function QuestionMarks(s: string): nat {
    if s == [] then 0 else (if s[0] == '?' then 1 else 0) + QuestionMarks(s[1..])
  }

  // ---- RebindQuestion ----

  function WriteQuestion(pieces: seq<Piece>): string {
    if pieces == [] then []
    else [if pieces[0].Param? then '?' else pieces[0].c] + WriteQuestion(pieces[1..])
  }

  function Rebind(s: string): string { WriteQuestion(Scan(s)) }

  lemma RebindStep(s: string)
    requires s != []
    ensures AtParam(s) ==> DigitRun(s[1..]) > 0 && Rebind(s) == "?" + Rebind(s[1 + DigitRun(s[1..])..])
    ensures !AtParam(s) ==> Rebind(s) == [s[0]] + Rebind(s[1..])
  {
    hide Number, Scan, DigitRun;
    ScanStep(s);
    assert Scan(s)[1..] == Scan(if AtParam(s) then s[1 + DigitRun(s[1..])..] else s[1..]);
  }

  method RebindQuestion(query: string) returns (r: string)
    ensures r == Rebind(query)
  {
    hide Rebind, DigitRun;
    r := [];
    var n := |query|;
    var i := 0;
    assert query[0..] == query;
    while i < n
      invariant 0 <= i <= n
      invariant r + Rebind(query[i..]) == Rebind(query)
    {
      ghost var s := query[i..];
      RebindStep(s);
      RunStarts(s);
      if query[i] == '$' && i + 1 < n {
        var j := ScanDigits(query, i + 1);
        assert s[1..] == query[i + 1..];
        if j > i + 1 {
          assert s[j - i..] == query[j..];
          r := r + "?";
          i := j;
          continue;
        }
      }
      assert s[1..] == query[i + 1..];
      r := r + [query[i]];
      i := i + 1;
    }
    assert query[i..] == [];
    RebindNothing();
  }

  lemma RunStarts(s: string)
    ensures |s| > 1 ==> (DigitRun(s[1..]) > 0 <==> IsDigit(s[1]))
  {
  }

  lemma RebindNothing()
    ensures Rebind([]) == []
  {
  }

  // ---- reindexFilter ----

  predicate AtIndex(s: string) { |s| > 1 && s[0] == '$' && '1' <= s[1] <= '9' }

  function Reindex(s: string, offset: nat): string {
    if s == [] then []
    else if AtIndex(s) then
      var k := DigitRun(s[1..]);
      "$" + Itoa(Number(s[1..1 + k]) + offset) + Reindex(s[1 + k..], offset)
    else [s[0]] + Reindex(s[1..], offset)
  }

  lemma {:induction false} ReindexStep(s: string, offset: nat)
    ensures s == [] ==> Reindex(s, offset) == []
    ensures AtIndex(s) ==>
      && DigitRun(s[1..]) > 0
      && Reindex(s, offset)
          == "$" + Itoa(Number(s[1..1 + DigitRun(s[1..])]) + offset) + Reindex(s[1 + DigitRun(s[1..])..], offset)
    ensures s != [] && !AtIndex(s) ==> Reindex(s, offset) == [s[0]] + Reindex(s[1..], offset)
  {
    hide Number, Itoa;
  }

  /** The end of the digits after a dollar sign. */
  method ScanDigits(s: string, i: nat) returns (j: nat)
    requires i <= |s|
    ensures j == i + DigitRun(s[i..])
  {
    j := i;
    while j < |s| && IsDigit(s[j])
      invariant i <= j <= |s|
      invariant DigitRun(s[i..]) == j - i + DigitRun(s[j..])
    {
      assert s[j..][1..] == s[j + 1..];
      j := j + 1;
    }
  }

  lemma TailSlices(s: string, i: nat, j: nat)
    requires i < j <= |s|
    ensures s[i..][j - i..] == s[j..] && s[i..][1..j - i] == s[i + 1..j]
  {
  }

  method ReindexFilter(filter: string, offset: nat) returns (r: string)
    ensures r == Reindex(filter, offset)
  {
    hide Itoa, Number, DigitRun, Reindex;
    r := [];
    var i := 0;
    assert filter[0..] == filter;
    while i < |filter|
      invariant 0 <= i <= |filter|
      invariant r + Reindex(filter[i..], offset) == Reindex(filter, offset)
    {
      ghost var s := filter[i..];
      assert s[1..] == filter[i + 1..];
      ReindexStep(s, offset);
      if filter[i] == '$' && i + 1 < |filter| && '1' <= filter[i + 1] <= '9' {
        var j := ScanDigits(filter, i + 1);
        TailSlices(filter, i, j);
        var written := "$" + Itoa(Number(filter[i + 1..j]) + offset);
        assert Reindex(s, offset) == written + Reindex(filter[j..], offset);
        r := r + written;
        i := j;
      } else {
        assert Reindex(s, offset) == [filter[i]] + Reindex(filter[i + 1..], offset);
        r := r + [filter[i]];
        i := i + 1;
      }
    }
    assert filter[i..] == [] && r + [] == r;
    ReindexStep([], offset);
  }

  // ---- composing text ----

  /** Appending b to a does not extend a placeholder at the end of a. */
  predicate Joins(a: string, b: string) {
    b == [] || !IsDigit(b[0]) || '$' !in a
  }

  lemma {:induction false} DigitRunOfConcat(a: string, b: string)
    requires b == [] || !IsDigit(b[0])
    ensures DigitRun(a + b) == DigitRun(a)
  {
    if a == [] {
      assert a + b == b;
    } else if IsDigit(a[0]) {
      assert (a + b)[1..] == a[1..] + b;
      DigitRunOfConcat(a[1..], b);
    }
  }

  lemma {:induction false} ScanOfConcat(a: string, b: string)
    requires Joins(a, b)
    ensures Scan(a + b) == Scan(a) + Scan(b)
    decreases |a|
  {
    hide Scan, Number, DigitRun;
    if a == [] {
      assert a + b == b;
      ScanNothing();
      assert [] + Scan(b) == Scan(b);
    } else if AtParam(a) {
      ScanStep(a);
      ScanStep(a + b);
      assert a[0] in a;
      var k := DigitRun(a[1..]);
      CutConcat(a, b, 1);
      DigitRunOfConcat(a[1..], b);
      CutConcat(a, b, 1 + k);
      assert (a + b)[1..1 + k] == a[1..1 + k];
      ScanOfConcat(a[1 + k..], b);
    } else {
      assert a[0] in a;
      assert !AtParam(a + b);
      ScanStep(a);
      ScanStep(a + b);
      CutConcat(a, b, 1);
      ScanOfConcat(a[1..], b);
    }
  }

  lemma ScanNothing()
    ensures Scan([]) == []
  {
  }

  lemma {:induction false} ParamsOfConcat(p: seq<Piece>, q: seq<Piece>)
    ensures ParamsOf(p + q) == ParamsOf(p) + ParamsOf(q)
  {
    if p == [] {
      assert p + q == q;
    } else {
      var first := if p[0].Param? then [p[0].n] else [];
      assert (p + q)[0] == p[0] && (p + q)[1..] == p[1..] + q;
      ParamsOfConcat(p[1..], q);
      assert first + (ParamsOf(p[1..]) + ParamsOf(q)) == (first + ParamsOf(p[1..])) + ParamsOf(q);
    }
  }

  lemma {:induction false} BindOfConcat(p: seq<Piece>, q: seq<Piece>, vals: seq<Value>)
    ensures BindNumbered(p + q, vals) == BindNumbered(p, vals) + BindNumbered(q, vals)
  {
    if p == [] {
      assert p + q == q;
    } else {
      assert (p + q)[1..] == p[1..] + q;
      BindOfConcat(p[1..], q, vals);
    }
  }

  lemma ConcatText(a: string, b: string, vals: seq<Value>)
    requires Joins(a, b)
    ensures Params(a + b) == Params(a) + Params(b)
    ensures Meaning(a + b, vals) == Meaning(a, vals) + Meaning(b, vals)
  {
    ScanOfConcat(a, b);
    ParamsOfConcat(Scan(a), Scan(b));
    BindOfConcat(Scan(a), Scan(b), vals);
  }

  /** A written placeholder reads back as its number. */
  lemma ScanOfPlaceholder(n: nat)
    ensures Scan("$" + Itoa(n)) == [Param(n)]
  {
    var s := "$" + Itoa(n);
    assert s[1..] == Itoa(n) && s[1] == Itoa(n)[0];
    DigitRunOfDigits(Itoa(n));
    assert s[1..1 + |Itoa(n)|] == Itoa(n) && s[1 + |Itoa(n)|..] == [];
    NumberOfItoa(n);
    assert Scan([]) == [];
  }

  /** Text in which no dollar sign is followed by a digit. */
  predicate NoParam(s: string) {
    forall i :: 0 <= i < |s| - 1 && s[i] == '$' ==> !IsDigit(s[i + 1])
  }

  function Literal(s: string): seq<Bound> {
    if s == [] then [] else [Char(s[0])] + Literal(s[1..])
  }

  lemma {:induction false} PlainText(s: string, vals: seq<Value>)
    requires NoParam(s)
    ensures Params(s) == [] && Meaning(s, vals) == Literal(s)
  {
    if s != [] {
      assert !AtParam(s);
      forall i | 0 <= i < |s[1..]| - 1 && s[1..][i] == '$' ensures !IsDigit(s[1..][i + 1]) {
        assert s[i + 1] == '$';
      }
      PlainText(s[1..], vals);
      assert Scan(s)[1..] == Scan(s[1..]);
    }
  }

  lemma {:induction false} LiteralOfConcat(a: string, b: string)
    ensures Literal(a + b) == Literal(a) + Literal(b)
  {
    if a == [] {
      assert a + b == b;
    } else {
      assert (a + b)[1..] == a[1..] + b;
      LiteralOfConcat(a[1..], b);
    }
  }

  // ---- renumbering keeps the meaning ----

  /** Every placeholder of the fragment starts with a digit other than 0. */
  predicate Indexed(s: string) {
    forall i :: 0 <= i < |s| - 1 && s[i] == '$' ==> s[i + 1] != '0'
  }

  function Shifted(pieces: seq<Piece>, offset: nat): seq<Piece> {
    if pieces == [] then []
    else [if pieces[0].Param? then Param(pieces[0].n + offset) else pieces[0]] + Shifted(pieces[1..], offset)
  }

  lemma IndexedTail(s: string, k: nat)
    requires Indexed(s) && k <= |s|
    ensures Indexed(s[k..])
  {
    forall i | 0 <= i < |s[k..]| - 1 && s[k..][i] == '$' ensures s[k..][i + 1] != '0' {
      assert s[k + i] == '$';
    }
  }

  lemma ReindexStart(s: string, offset: nat)
    requires s == [] || !IsDigit(s[0])
    ensures Reindex(s, offset) == [] || !IsDigit(Reindex(s, offset)[0])
  {
  }

  lemma {:induction false} ReindexShifts(s: string, offset: nat)
    requires Indexed(s)
    ensures Scan(Reindex(s, offset)) == Shifted(Scan(s), offset)
    decreases |s|
  {
    hide Itoa, Number, DigitRun, Scan, Reindex, Shifted;
    ReindexStep(s, offset);
    if s == [] {
      ScanNothing();
      ShiftedNothing(offset);
    } else {
      ScanStep(s);
      if AtIndex(s) {
        var k := DigitRun(s[1..]);
        var n := Number(s[1..1 + k]);
        var rest := s[1 + k..];
        IndexedTail(s, 1 + k);
        ReindexShifts(rest, offset);
        ReindexStart(rest, offset);
        ScanOfConcat("$" + Itoa(n + offset), Reindex(rest, offset));
        ScanOfPlaceholder(n + offset);
        assert Reindex(s, offset) == "$" + Itoa(n + offset) + Reindex(rest, offset);
        assert Scan(s) == [Param(n)] + Scan(rest);
        ShiftedCons(Param(n), Scan(rest), offset);
        assert Scan(Reindex(s, offset)) == Shifted(Scan(s), offset);
      } else {
        assert !AtParam(s);
        IndexedTail(s, 1);
        ReindexShifts(s[1..], offset);
        var r := Reindex(s[1..], offset);
        ReindexFirst(s[1..], offset);
        RawStep(s[0], r);
        assert Reindex(s, offset) == [s[0]] + r;
        assert Scan(s) == [Raw(s[0])] + Scan(s[1..]);
        ShiftedCons(Raw(s[0]), Scan(s[1..]), offset);
        assert Scan(Reindex(s, offset)) == Shifted(Scan(s), offset);
      }
    }
  }

  lemma ShiftedNothing(offset: nat)
    ensures Shifted([], offset) == []
  {
  }

  lemma RawStep(c: char, r: string)
    requires !AtParam([c] + r)
    ensures Scan([c] + r) == [Raw(c)] + Scan(r)
  {
    assert ([c] + r)[1..] == r;
  }

  lemma ShiftedCons(p: Piece, rest: seq<Piece>, offset: nat)
    ensures Shifted([p] + rest, offset) == [if p.Param? then Param(p.n + offset) else p] + Shifted(rest, offset)
  {
    assert ([p] + rest)[1..] == rest;
  }

  lemma ReindexFirst(s: string, offset: nat)
    ensures (s == []) == (Reindex(s, offset) == [])
    ensures s != [] ==> Reindex(s, offset)[0] == s[0]
  {
  }

  lemma {:induction false} ShiftedParams(pieces: seq<Piece>, offset: nat, lo: nat, hi: nat)
    requires lo <= hi && ParamsOf(pieces) == Range(lo, hi)
    ensures ParamsOf(Shifted(pieces, offset)) == Range(lo + offset, hi + offset)
    decreases |pieces|
  {
    if pieces != [] {
      var rest := pieces[1..];
      assert Shifted(pieces, offset)[1..] == Shifted(rest, offset);
      if pieces[0].Param? {
        assert ParamsOf(pieces)[1..] == ParamsOf(rest) && ParamsOf(pieces)[0] == pieces[0].n;
        assert Range(lo, hi)[1..] == Range(lo + 1, hi);
        ShiftedParams(rest, offset, lo + 1, hi);
      } else {
        assert ParamsOf(pieces) == ParamsOf(rest);
        ShiftedParams(rest, offset, lo, hi);
      }
    }
  }

  lemma {:induction false} ShiftedMeaning(pieces: seq<Piece>, prior: seq<Value>, vals: seq<Value>)
    requires forall p <- pieces :: p.Param? ==> 1 <= p.n <= |vals|
    ensures BindNumbered(Shifted(pieces, |prior|), prior + vals) == BindNumbered(pieces, vals)
  {
    if pieces != [] {
      var shifted := Shifted(pieces, |prior|);
      assert shifted[1..] == Shifted(pieces[1..], |prior|);
      forall p <- pieces[1..] ensures p.Param? ==> 1 <= p.n <= |vals| { assert p in pieces; }
      ShiftedMeaning(pieces[1..], prior, vals);
      assert pieces[0] in pieces;
      var p := pieces[0];
      if p.Param? {
        assert shifted[0] == Param(p.n + |prior|);
        assert (prior + vals)[p.n + |prior| - 1] == vals[p.n - 1];
      } else {
        assert shifted[0] == p;
      }
    }
  }

  lemma {:induction false} RangeElements(lo: nat, hi: nat, n: nat)
    requires lo <= hi
    ensures n in Range(lo, hi) <==> lo < n <= hi
    ensures |Range(lo, hi)| == hi - lo
    decreases hi - lo
  {
    if lo < hi {
      RangeElements(lo + 1, hi, n);
    }
  }

  lemma {:induction false} ParamsInRange(pieces: seq<Piece>, p: Piece)
    requires p in pieces && p.Param?
    ensures p.n in ParamsOf(pieces)
  {
    if pieces[0] != p {
      ParamsInRange(pieces[1..], p);
    }
  }

  /** Renumbering a fragment behind already bound arguments leaves its meaning unchanged. */
  lemma ReindexKeepsMeaning(s: string, prior: seq<Value>, vals: seq<Value>)
    requires Indexed(s) && Params(s) == Range(0, |vals|)
    ensures Params(Reindex(s, |prior|)) == Range(|prior|, |prior| + |vals|)
    ensures Meaning(Reindex(s, |prior|), prior + vals) == Meaning(s, vals)
  {
    hide Scan, Reindex, Shifted, Indexed, Range;
    ReindexShifts(s, |prior|);
    ShiftedParams(Scan(s), |prior|, 0, |vals|);
    forall p | p in Scan(s) && p.Param? ensures 1 <= p.n <= |vals| {
      ParamsInRange(Scan(s), p);
      RangeElements(0, |vals|, p.n);
    }
    ShiftedMeaning(Scan(s), prior, vals);
  }

  // ---- rewriting to ? keeps the meaning exactly when placeholders are in order ----

  lemma {:induction false} RebindInOrder(pieces: seq<Piece>, vals: seq<Value>, lo: nat)
    requires lo <= |vals| && ParamsOf(pieces) == Range(lo, |vals|)
    requires Raw('?') !in pieces
    ensures QuestionMeaning(WriteQuestion(pieces), vals[lo..]) == BindNumbered(pieces, vals)
    ensures QuestionMarks(WriteQuestion(pieces)) == |vals| - lo
    decreases |pieces|
  {
    if pieces != [] {
      var rest := pieces[1..];
      assert WriteQuestion(pieces)[1..] == WriteQuestion(rest);
      assert pieces[0] in pieces;
      if pieces[0].Param? {
        assert ParamsOf(pieces)[1..] == ParamsOf(rest) && ParamsOf(pieces)[0] == pieces[0].n;
        assert Range(lo, |vals|)[1..] == Range(lo + 1, |vals|);
        assert vals[lo..][1..] == vals[lo + 1..];
        RebindInOrder(rest, vals, lo + 1);
      } else {
        assert ParamsOf(pieces) == ParamsOf(rest);
        RebindInOrder(rest, vals, lo);
      }
    }
  }

  function Counting(n: nat): seq<Value> { seq(n, i => Int(i)) }

  lemma {:induction false} OrderFromMeaning(pieces: seq<Piece>, n: nat, lo: nat)
    requires lo <= n && Raw('?') !in pieces && QuestionMarks(WriteQuestion(pieces)) == n - lo
    requires QuestionMeaning(WriteQuestion(pieces), Counting(n)[lo..]) == BindNumbered(pieces, Counting(n))
    ensures ParamsOf(pieces) == Range(lo, n)
    decreases |pieces|
  {
    if pieces != [] {
      var rest, vals := pieces[1..], Counting(n)[lo..];
      var q, b := WriteQuestion(pieces), BindNumbered(pieces, Counting(n));
      assert q[1..] == WriteQuestion(rest) && b[1..] == BindNumbered(rest, Counting(n));
      assert pieces[0] in pieces;
      if pieces[0].Param? {
        assert lo < n;
        assert vals[1..] == Counting(n)[lo + 1..];
        assert QuestionMeaning(q, vals)[0] == Arg(Int(lo)) &&
            QuestionMeaning(q, vals)[1..] == QuestionMeaning(q[1..], vals[1..]);
        OrderFromMeaning(rest, n, lo + 1);
      } else {
        assert QuestionMeaning(q, vals)[1..] == QuestionMeaning(q[1..], vals);
        OrderFromMeaning(rest, n, lo);
      }
    }
  }

  lemma {:induction false} QuestionsAreRead(s: string, vals: seq<Value>)
    ensures Char('?') !in QuestionMeaning(s, vals)
    decreases |s|
  {
    if s != [] {
      QuestionsAreRead(s[1..], if s[0] == '?' && vals != [] then vals[1..] else if s[0] == '?' then [] else vals);
    }
  }

  lemma {:induction false} RawQuestions(s: string)
    ensures Raw('?') in Scan(s) <==> '?' in s
    decreases |s|
  {
    hide Scan, Number;
    if s == [] {
      ScanNothing();
    } else {
      ScanStep(s);
      if AtParam(s) {
        var k := DigitRun(s[1..]);
        RawQuestions(s[1 + k..]);
        var head := s[..1 + k];
        assert s == head + s[1 + k..];
        assert forall i :: 0 <= i < |head| ==> head[i] != '?';
      } else {
        RawQuestions(s[1..]);
        assert s == [s[0]] + s[1..];
      }
    }
  }

  lemma {:induction false} BoundQuestions(pieces: seq<Piece>, vals: seq<Value>)
    ensures Char('?') in BindNumbered(pieces, vals) <==> Raw('?') in pieces
    decreases |pieces|
  {
    if pieces != [] {
      BoundQuestions(pieces[1..], vals);
      assert pieces == [pieces[0]] + pieces[1..];
    }
  }

  /** A literal question mark of the text is one of its meaning. */
  lemma MeaningQuestions(s: string, vals: seq<Value>)
    ensures Char('?') in Meaning(s, vals) <==> '?' in s
  {
    hide Scan;
    RawQuestions(s);
    BoundQuestions(Scan(s), vals);
  }

  /** For any query and n arguments: rewriting to ? binds every position to the same value,
      whatever the values are, if and only if the placeholders are $1, …, $n, each once, in
      textual order, and no literal question mark stands in the text. */
  lemma RebindNeedsTextualOrder(s: string, n: nat)
    ensures Params(s) == Range(0, n) && '?' !in s <==>
      (forall vals: seq<Value> :: |vals| == n ==>
        QuestionMeaning(Rebind(s), vals) == Meaning(s, vals) && QuestionMarks(Rebind(s)) == n)
  {
    hide Scan, BindNumbered, QuestionMeaning, QuestionMarks, ParamsOf, WriteQuestion;
    RawQuestions(s);
    if Params(s) == Range(0, n) && '?' !in s {
      forall vals: seq<Value> | |vals| == n
        ensures QuestionMeaning(Rebind(s), vals) == Meaning(s, vals) && QuestionMarks(Rebind(s)) == n
      {
        RebindInOrder(Scan(s), vals, 0);
        assert vals[0..] == vals;
      }
    }
    if forall vals: seq<Value> :: |vals| == n ==>
        QuestionMeaning(Rebind(s), vals) == Meaning(s, vals) && QuestionMarks(Rebind(s)) == n {
      assert |Counting(n)| == n && Counting(n)[0..] == Counting(n);
      QuestionsAreRead(Rebind(s), Counting(n));
      MeaningQuestions(s, Counting(n));
      OrderFromMeaning(Scan(s), n, 0);
    }
  }

  // ---- text without placeholders ----

  /** How often a dollar sign stands before a digit. */
  function Starts(s: string): nat {
    if s == [] then 0 else (if AtParam(s) then 1 else 0) + Starts(s[1..])
  }

  lemma {:induction false} StartsPastDigits(a: string, b: string)
    requires '$' !in a
    ensures Starts(a + b) == Starts(b)
  {
    if a == [] {
      assert a + b == b;
    } else {
      assert (a + b)[1..] == a[1..] + b && (a + b)[0] == a[0];
      assert a[0] in a;
      StartsPastDigits(a[1..], b);
    }
  }

  lemma {:induction false} StartsAreParams(s: string)
    ensures |Params(s)| == Starts(s)
    decreases |s|
  {
    hide Number;
    if s != [] {
      ScanStep(s);
      if AtParam(s) {
        var k := DigitRun(s[1..]);
        RunOfDigits(s[1..]);
        assert !IsDigit('$');
        StartsAreParams(s[1 + k..]);
        assert s[1..] == s[1..][..k] + s[1 + k..];
        StartsPastDigits(s[1..][..k], s[1 + k..]);
      } else {
        StartsAreParams(s[1..]);
      }
    }
  }

  lemma {:induction false} RunOfDigits(s: string)
    ensures DigitRun(s) <= |s| && forall c <- s[..DigitRun(s)] :: IsDigit(c)
  {
    if s != [] && IsDigit(s[0]) {
      RunOfDigits(s[1..]);
      assert s[..DigitRun(s)] == [s[0]] + s[1..][..DigitRun(s[1..])];
    }
  }

  lemma {:induction false} PlainHasNoStarts(s: string)
    ensures NoParam(s) <==> Starts(s) == 0
  {
    if s != [] {
      PlainHasNoStarts(s[1..]);
      forall i | NoParam(s) && 0 <= i < |s[1..]| - 1 && s[1..][i] == '$' ensures !IsDigit(s[1..][i + 1]) {
        assert s[i + 1] == '$';
      }
      forall i | NoParam(s[1..]) && !AtParam(s) && 0 <= i < |s| - 1 && s[i] == '$' ensures !IsDigit(s[i + 1]) {
        if i > 0 { assert s[1..][i - 1] == '$' && s[1..][i] == s[i + 1]; }
      }
    }
  }

  lemma {:induction false} RebindShortens(s: string)
    ensures |Rebind(s)| + Starts(s) <= |s|
    ensures Starts(s) == 0 ==> Rebind(s) == s
    decreases |s|
  {
    hide Rebind;
    if s == [] {
      RebindNothing();
    } else {
      RebindStep(s);
      if AtParam(s) {
        var k := DigitRun(s[1..]);
        RunOfDigits(s[1..]);
        RebindShortens(s[1 + k..]);
        assert !IsDigit('$');
        assert s[1..] == s[1..][..k] + s[1 + k..];
        StartsPastDigits(s[1..][..k], s[1 + k..]);
      } else {
        RebindShortens(s[1..]);
      }
    }
  }

  /** RebindQuestion leaves a text alone if and only if no dollar sign in it stands before a digit. */
  lemma RebindKeepsPlainText(s: string)
    ensures Rebind(s) == s <==> NoParam(s)
  {
    RebindShortens(s);
    PlainHasNoStarts(s);
  }
}
