/** Splitting is stable: the statements SplitStatements returns, put back together with
    semicolons between them, split into the same statements again. */
module SqlResplit {
  import opened Strings
  import opened SqlScript

  /** Text that cannot extend the element before it: the end, white space or a semicolon. */
  predicate Breaks(v: string) { v == [] || IsSpace(v[0]) || v[0] == ';' }

  predicate NewlineOrEnd(v: string) { v == [] || v[0] == '\n' }

  // ---- elements that end within u do not depend on what follows u ----

  lemma {:induction false} QuotedStable(u: string, v: string, w: string, q: char)
    requires IsQuote(q) && Breaks(v) && Breaks(w) && (v != [] || w == [])
    requires QuotedLen(u + v, q) <= |u|
    ensures QuotedLen(u + w, q) == QuotedLen(u + v, q)
    decreases |u|
  {
    if u == [] {
      assert u + v == v && u + w == w;
    } else {
      QuotedStep(u, v, q);
      QuotedStep(u, w, q);
      var k := if u[0] == q || (u[0] == '\\' && q != '"') then 2 else 1;
      if k <= |u| && !(u[0] == q && !(|u| >= 2 && u[1] == q)) {
        QuotedStable(u[k..], v, w, q);
      }
    }
  }

  /** One step of QuotedLen on a concatenation, taken within its first part. */
  lemma {:induction false} QuotedStep(u: string, v: string, q: char)
    requires IsQuote(q) && Breaks(v) && u != []
    ensures QuotedLen(u + v, q) ==
      if u[0] == q then (if |u| >= 2 && u[1] == q then 2 + QuotedLen(u[2..] + v, q) else 1)
      else if u[0] == '\\' && q != '"' then
        (if |u| >= 2 then 2 + QuotedLen(u[2..] + v, q) else if v == [] then 1 else 2 + QuotedLen(v[1..], q))
      else 1 + QuotedLen(u[1..] + v, q)
  {
    if u[0] == q || (u[0] == '\\' && q != '"') {
      if |u| >= 2 {
        CutConcat(u, v, 2);
      } else if v != [] {
        assert (u + v)[2..] == v[1..];
      }
    } else {
      CutConcat(u, v, 1);
    }
  }

  /** A string that runs past u is unterminated in u alone. */
  lemma {:induction false} QuotedCut(u: string, v: string, q: char)
    requires IsQuote(q) && Breaks(v) && QuotedLen(u + v, q) > |u|
    ensures QuotedLen(u, q) == |u|
    decreases |u|
  {
    if u != [] {
      QuotedStep(u, v, q);
      QuotedStep(u, "", q);
      assert u + "" == u && u[1..] + "" == u[1..] && (|u| >= 2 ==> u[2..] + "" == u[2..]);
      var k := if u[0] == q || (u[0] == '\\' && q != '"') then 2 else 1;
      if k <= |u| && !(u[0] == q && !(|u| >= 2 && u[1] == q)) {
        QuotedCut(u[k..], v, q);
      }
    }
  }

  lemma {:induction false} QuotedEndsInQuote(s: string, q: char)
    requires QuotedLen(s, q) < |s|
    ensures QuotedLen(s, q) > 0 && s[QuotedLen(s, q) - 1] == q
    decreases |s|
  {
    if s[0] == q {
      if s[1] == q { QuotedEndsInQuote(s[2..], q); }
    } else if s[0] == '\\' && q != '"' {
      QuotedEndsInQuote(s[2..], q);
    } else {
      QuotedEndsInQuote(s[1..], q);
    }
  }

  lemma {:induction false} TagStops(u: string, v: string, first: bool)
    requires Breaks(v)
    ensures TagLen(u + v, first) == TagLen(u, first)
  {
    if u == [] {
      assert u + v == v;
    } else if TagChar(u[0], first) {
      assert (u + v)[1..] == u[1..] + v;
      TagStops(u[1..], v, false);
    }
  }

  /** The tag of a dollar quote lies within u. */
  lemma DollarLenSplit(u: string, v: string)
    requires u != [] && u[0] == '$' && Breaks(v)
    ensures var j := 1 + TagLen(u[1..], true);
            DollarLen(u + v) ==
              if j < |u| && u[j] == '$' then
                var k := Find(u[j + 1..] + v, u[..j + 1]);
                if k < 0 then |u + v| else j + 1 + k + (j + 1)
              else 1
  {
    hide Find, OccursAt;
    var j := 1 + TagLen(u[1..], true);
    CutConcat(u, v, 1);
    TagStops(u[1..], v, true);
    if j < |u| {
      CutConcat(u, v, j + 1);
    }
  }

  lemma DollarStable(u: string, v: string, w: string)
    requires u != [] && u[0] == '$' && Breaks(v) && Breaks(w) && (v != [] || w == [])
    requires DollarLen(u + v) <= |u|
    ensures DollarLen(u + w) == DollarLen(u + v)
  {
    var j := 1 + TagLen(u[1..], true);
    hide DollarLen, IsSpace;
    DollarLenSplit(u, v);
    DollarLenSplit(u, w);
    if j < |u| && u[j] == '$' {
      FindInPrefix(u[j + 1..], v, u[..j + 1]);
      FindInPrefix(u[j + 1..], w, u[..j + 1]);
    }
  }

  lemma DollarCut(u: string, v: string)
    requires u != [] && u[0] == '$' && Breaks(v) && DollarLen(u + v) > |u|
    ensures DollarLen(u) == |u|
  {
    var j := 1 + TagLen(u[1..], true);
    hide DollarLen, IsSpace;
    DollarLenSplit(u, v);
    DollarLenSplit(u, "");
    assert u + "" == u;
    if j < |u| && u[j] == '$' {
      FindInPrefix(u[j + 1..], v, u[..j + 1]);
      FindInPrefix(u[j + 1..], "", u[..j + 1]);
    }
  }

  lemma BlockStable(u: string, v: string, w: string)
    requires IsBlockComment(u) && (v != [] || w == [])
    requires BlockCommentLen(u + v) <= |u|
    ensures BlockCommentLen(u + w) == BlockCommentLen(u + v)
  {
    assert (u + v)[2..] == u[2..] + v && (u + w)[2..] == u[2..] + w;
    FindInPrefix(u[2..], v, "*/");
    FindInPrefix(u[2..], w, "*/");
  }

  lemma BlockCut(u: string, v: string)
    requires IsBlockComment(u) && BlockCommentLen(u + v) > |u|
    ensures BlockCommentLen(u) == |u|
  {
    assert (u + v)[2..] == u[2..] + v;
    FindInPrefix(u[2..], v, "*/");
  }

  lemma ElementStable(u: string, v: string, w: string)
    requires u != [] && Breaks(v) && Breaks(w) && (v != [] || w == [])
    requires NewlineOrEnd(w) || (v != [] && v[0] == w[0])
    requires ElementLen(u + v) <= |u|
    ensures ElementLen(u + w) == ElementLen(u + v)
  {
    hide QuotedLen, DollarLen, BlockCommentLen, IndexOfChar, IsSpace;
    if IsLineComment(u) {
      IndexInPrefix(u, v, '\n');
      IndexInPrefix(u, w, '\n');
    } else if IsBlockComment(u) {
      BlockStable(u, v, w);
    } else if IsQuote(u[0]) {
      assert (u + v)[1..] == u[1..] + v && (u + w)[1..] == u[1..] + w;
      QuotedStable(u[1..], v, w, u[0]);
    } else if u[0] == '$' {
      DollarStable(u, v, w);
    }
  }

  /** An element that runs past u takes all of u when u stands alone, and a line comment
      also when a line break follows u. */
  lemma ElementCut(u: string, v: string)
    requires u != [] && Breaks(v) && ElementLen(u + v) > |u|
    ensures ElementLen(u) == |u|
    ensures IsLineComment(u + v) ==> ElementLen(u + "\n") == |u|
  {
    assert IsLineComment(u + v) ==> IsLineComment(u);
    if IsLineComment(u) {
      IndexInPrefix(u, v, '\n');
      IndexInPrefix(u, "\n", '\n');
      assert u + [] == u;
    } else if IsBlockComment(u) {
      BlockCut(u, v);
    } else if IsQuote(u[0]) {
      assert (u + v)[1..] == u[1..] + v;
      QuotedCut(u[1..], v, u[0]);
    } else if u[0] == '$' {
      DollarCut(u, v);
    }
  }

  /** A terminated element of several characters never ends in white space, unless it is a
      line comment. */
  lemma ElementLastChar(s: string)
    requires s != [] && 2 <= ElementLen(s) < |s| && !IsLineComment(s)
    ensures !IsSpace(s[ElementLen(s) - 1])
  {
    if IsBlockComment(s) {
      var k := Find(s[2..], "*/");
      assert s[2..][k..k + 2][1] == s[k + 3];
    } else if IsQuote(s[0]) {
      QuotedEndsInQuote(s[1..], s[0]);
    } else {
      var j := 1 + TagLen(s[1..], true);
      var tag := s[..j + 1];
      var k := Find(s[j + 1..], tag);
      assert s[j + 1..][k..k + |tag|][|tag| - 1] == s[j + k + |tag|];
    }
  }

  // ---- trimmed pieces ----

  /** A statement whose elements all end within it, whatever follows on the next line. */
  predicate Closed(t: string) { Quiet(t + "\n", |t|) }

  lemma SpaceElement(s: string)
    requires s != [] && IsSpace(s[0])
    ensures s[0] != ';' && ElementLen(s) == 1
  {
  }

  lemma {:induction false} SkipSpace(left: string, s: string, n: nat)
    requires AllSpace(left)
    ensures Quiet(left + s, |left| + n) <==> Quiet(s, n)
  {
    hide ElementLen, IsSpace;
    if left == [] {
      assert left + s == s;
    } else {
      assert left[0] in left && (left + s)[0] == left[0];
      SpaceElement(left + s);
      CutConcat(left, s, 1);
      SkipSpace(left[1..], s, n);
    }
  }

  lemma NewlineBreaks()
    ensures Breaks("\n") && AllSpace("\n") && Breaks(";")
  {
  }

  /** A piece that ended in a semicolon is closed once trailing space is trimmed. */
  lemma {:induction false} TrimmedIsClosed(u: string, v: string, k: nat)
    requires k < |v| && AllSpace(v[..k]) && v[k] == ';' && Quiet(u + v, |u| + k)
    ensures Closed(u)
    decreases |u|
  {
    hide ElementLen, IsSpace;
    if u != [] {
      var s := u + v;
      var n := ElementLen(s);
      assert k > 0 ==> v[..k][0] == v[0];
      assert (u + "\n")[0] == s[0];
      if n <= |u| {
        NewlineBreaks();
        ElementStable(u, v, "\n");
        assert s[n..] == u[n..] + v && (u + "\n")[n..] == u[n..] + "\n";
        TrimmedIsClosed(u[n..], v, k);
      } else {
        assert n <= |u| + k;
        assert IsSpace(s[n - 1]) by {
          assert s[n - 1] == v[..k][n - 1 - |u|] && v[..k][n - 1 - |u|] in v[..k];
        }
        assert IsLineComment(s) by {
          if !IsLineComment(s) { ElementLastChar(s); }
        }
        ElementCut(u, v);
        assert Quiet((u + "\n")[|u|..], 0);
      }
    }
  }

  /** The last piece may hold an unterminated string; trimming it keeps it one piece. */
  lemma {:induction false} TrimmedStaysQuiet(u: string, v: string)
    requires AllSpace(v) && Quiet(u + v, |u + v|)
    ensures Quiet(u, |u|)
    decreases |u|
  {
    hide ElementLen, IsSpace;
    if u != [] {
      var n := ElementLen(u + v);
      if n <= |u| {
        ElementStable(u, v, []);
        assert u + [] == u && (u + v)[n..] == u[n..] + v;
        TrimmedStaysQuiet(u[n..], v);
      } else {
        ElementCut(u, v);
      }
    }
  }

  lemma NewlineElement(rest: string)
    ensures ElementLen("\n" + rest) == 1 && Quiet("\n" + rest, 1) && Breaks("\n" + rest) && Breaks("\n")
  {
    SpaceElement("\n" + rest);
  }

  lemma {:induction false} ClosedExtends(t: string, rest: string)
    requires Closed(t)
    ensures Quiet(t + "\n" + rest, |t| + 1) && Quiet(t, |t|)
    decreases |t|
  {
    hide ElementLen, IsSpace;
    var s := t + "\n" + rest;
    NewlineElement(rest);
    if t == [] {
      assert s == "\n" + rest && s[1..] == rest;
    } else {
      var n := ElementLen(t + "\n");
      assert s == t + ("\n" + rest) && t + [] == t;
      ElementStable(t, "\n", "\n" + rest);
      ElementStable(t, "\n", []);
      assert (t + "\n")[n..] == t[n..] + "\n" && s[n..] == t[n..] + "\n" + rest;
      ClosedExtends(t[n..], rest);
    }
  }

  /** What a list of split statements keeps: trimmed, worth keeping, all but the last
      closed, and the last one a single piece. */
  ghost predicate Splittable(ts: seq<string>) {
    && (forall t <- ts :: Trimmed(t) && Keeps(t) && Quiet(t, |t|))
    && (forall i :: 0 <= i < |ts| - 1 ==> Closed(ts[i]))
  }

  lemma PieceIsSplittable(s: string, n: nat)
    requires n <= |s| && Quiet(s, n) && (n < |s| ==> s[n] == ';')
    ensures var t := Trim(s[..n]); Trimmed(t) && Quiet(t, |t|) && (n < |s| ==> Closed(t))
  {
    hide Quiet, IsSpace, Trim, Keeps;
    var left, right := TrimSplits(s[..n]);
    var t := Trim(s[..n]);
    var v := right + s[n..];
    assert s == left + (t + v);
    SkipSpace(left, t + v, |t| + |right|);
    if n < |s| {
      assert v[..|right|] == right;
      TrimmedIsClosed(t, v, |right|);
      ClosedExtends(t, "");
    } else {
      assert v == right;
      TrimmedStaysQuiet(t, v);
    }
  }

  lemma {:induction false} SplitIsSplittable(s: string)
    ensures Splittable(Split(s))
    decreases |s|
  {
    hide Quiet, IsSpace, Trim, Trimmed, Keeps, Pieces, Closed;
    FirstPiece(s);
    var n := |Pieces(s)[0]|;
    PieceIsSplittable(s, n);
    assert Pieces(s)[0] == s[..n];
    if n < |s| {
      SplitIsSplittable(s[n + 1..]);
      SplittableAppend(s[..n], Split(s[n + 1..]));
    } else {
      assert Pieces(s)[1..] == [];
      SplittableAppend(s[..n], Statements([]));
    }
  }

  lemma SplittableAppend(piece: string, ts: seq<string>)
    requires var t := Trim(piece); Trimmed(t) && Quiet(t, |t|) && (Closed(t) || ts == [])
    requires Splittable(ts)
    ensures Splittable(Flushed(piece) + ts)
  {
    hide Quiet, IsSpace, Trim, Trimmed, Keeps, Closed;
  }

  lemma SplitAt(s: string, n: nat)
    requires n < |s| && Quiet(s, n) && s[n] == ';'
    ensures Split(s) == Flushed(s[..n]) + Split(s[n + 1..])
  {
    hide Quiet, Flushed, Pieces;
    PiecesAfterQuiet(s, n);
    assert s[n..][1..] == s[n + 1..];
    FlushStep(s[..n], s[n..]);
    PrependNothing(Pieces(s[n + 1..]));
  }

  /** A closed statement followed by a line break and a semicolon is split off. */
  lemma SplitsOff(lead: string, t: string, rest: string)
    requires AllSpace(lead) && Trimmed(t) && Keeps(t) && Closed(t)
    ensures Split(lead + t + "\n;" + rest) == [t] + Split(rest)
  {
    hide Quiet, Trim, Trimmed, Keeps, Pieces, Closed;
    var s, n := lead + t + "\n;" + rest, |lead| + |t| + 1;
    var tail := t + "\n" + (";" + rest);
    assert s == lead + tail;
    ClosedExtends(t, ";" + rest);
    SkipSpace(lead, tail, |t| + 1);
    assert s[..n] == lead + t + "\n" && s[n + 1..] == rest;
    SplitAt(s, n);
    TrimOfTrimmed(t);
    TrimIgnores(lead, t, "\n");
  }

  lemma SplitsLast(lead: string, t: string)
    requires AllSpace(lead) && Trimmed(t) && Keeps(t) && Quiet(t, |t|)
    ensures Split(lead + t) == [t]
  {
    hide Quiet, Trim, Trimmed, Keeps, Pieces, IsSpace;
    var s := lead + t;
    SkipSpace(lead, t, |t|);
    PiecesAfterQuiet(s, |s|);
    assert s[..|s|] == s && s[|s|..] == [];
    FlushLast(s);
    TrimOfTrimmed(t);
    TrimIgnores(lead, t, "");
    assert lead + t + "" == s;
  }

  lemma {:induction false} SplitOfJoin(ts: seq<string>, lead: string)
    requires Splittable(ts) && ts != [] && AllSpace(lead)
    ensures Split(lead + Join(ts, "\n;\n")) == ts
    decreases |ts|
  {
    hide Split, Quiet, Trimmed, Keeps, Closed;
    var t := ts[0];
    assert t in ts;
    if |ts| == 1 {
      SplitsLast(lead, t);
    } else {
      var rest := "\n" + Join(ts[1..], "\n;\n");
      assert lead + Join(ts, "\n;\n") == lead + t + "\n;" + rest;
      SplitsOff(lead, t, rest);
      SplitOfJoin(ts[1..], "\n");
    }
  }

  /** A statement that ends in its only top-level semicolon is quiet before it, whatever
      follows. */
  lemma {:induction false} QuietBeforeSemicolon(u: string, rest: string)
    requires Quiet(u + ";", |u|)
    ensures Quiet(u + ";" + rest, |u|)
    decreases |u|
  {
    hide ElementLen, IsSpace;
    if u != [] {
      var n := ElementLen(u + ";");
      var w := ";" + rest;
      NewlineBreaks();
      assert u + ";" + rest == u + w && (u + w)[0] == (u + ";")[0];
      ElementStable(u, ";", w);
      CutConcat(u, ";", n);
      CutConcat(u, w, n);
      assert u[n..] + w == u[n..] + ";" + rest;
      QuietBeforeSemicolon(u[n..], rest);
    }
  }

  /** Splitting, joining with a semicolon on its own line and splitting again returns the
      same statements, for every script. */
  lemma ResplitIsIdentity(script: string)
    ensures Split(Join(Split(script), "\n;\n")) == Split(script)
  {
    hide Splittable;
    SplitIsSplittable(script);
    var ts := Split(script);
    if ts == [] {
      FlushLast("");
      PrependNothing(Pieces(""));
    } else {
      SplitOfJoin(ts, "");
      assert "" + Join(ts, "\n;\n") == Join(ts, "\n;\n");
    }
  }
}
